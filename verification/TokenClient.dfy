/**
 A client that knows tokens only: it asks for the first page without one, and then hands back the
 token of each answer. The table may change between two requests.
 */
module TokenClient {
  import opened Common
  import opened Cursor
  import opened Keyset
  import opened Traversal
  import opened Users

  /** The token of request k. */
  function TokenAt(answers: seq<Answer>, k: nat): Option<string>
    requires k <= |answers|
  {
    if k == 0 then None else answers[k - 1].next
  }

  /** Request k carries the token just received and is answered from snapshot k. */
  ghost predicate Asked(py: Python, snaps: seq<set<User>>, filter: User -> bool, limit: nat, answers: seq<Answer>,
                        k: nat)
    requires limit >= 1
    requires ValidSnapshots(snaps)
    requires k < |answers| == |snaps|
  {
    && Answers(py, snaps[k], filter, limit, TokenAt(answers, k), answers[k])
    && (k + 1 < |answers| ==> answers[k].next.Some?)
  }

  ghost predicate Session(py: Python, snaps: seq<set<User>>, filter: User -> bool, limit: nat, answers: seq<Answer>)
    requires limit >= 1
    requires ValidSnapshots(snaps)
  {
    && |snaps| == |answers| >= 1
    && (forall k: nat | k < |answers| :: Asked(py, snaps, filter, limit, answers, k))
  }

  /** The rows in the order the client sees them. */
  function Seen(answers: seq<Answer>): seq<User> {
    SeenFrom(answers, 0)
  }

  function SeenFrom(answers: seq<Answer>, k: nat): seq<User>
    decreases |answers| - k
  {
    if k >= |answers| then [] else answers[k].users + SeenFrom(answers, k + 1)
  }

  /** The client got to the end: no token came with the last page. */
  ghost predicate Finished(answers: seq<Answer>) {
    answers != [] && answers[|answers| - 1].next.None?
  }

  /** The pages behind the answers, with positions in the place of tokens. */
  function PagesOf(py: Python, answers: seq<Answer>): (pages: seq<Page<Profile>>)
    ensures |pages| == |answers|
    ensures forall k | 0 <= k < |answers| ::
              pages[k] == Page(answers[k].users, CursorOf(HandleToken(py, answers[k].next)))
  {
    seq(|answers|, k requires 0 <= k < |answers| => Page(answers[k].users, CursorOf(HandleToken(py, answers[k].next))))
  }

  lemma PageBehind(py: Python, snaps: seq<set<User>>, filter: User -> bool, limit: nat, answers: seq<Answer>, k: nat)
    requires limit >= 1
    requires ValidSnapshots(snaps)
    requires Session(py, snaps, filter, limit, answers) && k < |answers|
    ensures Answered(snaps, filter, limit, PagesOf(py, answers), k)
  {
    var pages := PagesOf(py, answers);
    assert Asked(py, snaps, filter, limit, answers, k);
    assert CursorAt(pages, k) == CursorOf(HandleToken(py, TokenAt(answers, k)));
    hide PageOf;
  }

  /** A session of tokens is a run of positions. */
  lemma SessionIsRun(py: Python, snaps: seq<set<User>>, filter: User -> bool, limit: nat, answers: seq<Answer>)
    requires limit >= 1
    requires ValidSnapshots(snaps)
    requires Session(py, snaps, filter, limit, answers)
    ensures Run(snaps, filter, limit, PagesOf(py, answers))
    ensures Finished(answers) ==> Complete(PagesOf(py, answers))
    ensures Yielded(PagesOf(py, answers)) == Seen(answers)
  {
    forall k: nat | k < |answers|
      ensures Answered(snaps, filter, limit, PagesOf(py, answers), k)
    {
      PageBehind(py, snaps, filter, limit, answers, k);
    }
    SameRowsSeen(py, answers, 0);
  }

  lemma {:induction false} SameRowsSeen(py: Python, answers: seq<Answer>, k: nat)
    ensures YieldedFrom(PagesOf(py, answers), k) == SeenFrom(answers, k)
    decreases |answers| - k
  {
    if k < |answers| {
      SameRowsSeen(py, answers, k + 1);
    }
  }

  /** Such a client sees no user twice, whatever is inserted, deleted or updated between its requests. */
  lemma ClientSeesNobodyTwice(py: Python, snaps: seq<set<User>>, created: nat -> int, filter: User -> bool, limit: nat,
                              answers: seq<Answer>)
    requires limit >= 1
    requires ValidSnapshots(snaps) && KeysImmutable(snaps, created)
    requires Session(py, snaps, filter, limit, answers)
    ensures forall i, j | 0 <= i < j < |Seen(answers)| :: Seen(answers)[i].id != Seen(answers)[j].id
  {
    SessionIsRun(py, snaps, filter, limit, answers);
    hide *;
    NoRowTwice(snaps, created, filter, limit, PagesOf(py, answers));
  }

  /** And once it is finished, it has seen every user who was there and matched in every snapshot exactly once. */
  lemma ClientSeesStableOnce(py: Python, snaps: seq<set<User>>, created: nat -> int, filter: User -> bool, limit: nat,
                             answers: seq<Answer>, id: nat)
    requires limit >= 1
    requires ValidSnapshots(snaps) && KeysImmutable(snaps, created)
    requires Session(py, snaps, filter, limit, answers) && Finished(answers)
    requires forall k | 0 <= k < |snaps| :: Present(snaps[k], filter, id)
    ensures exists i :: 0 <= i < |Seen(answers)| && Seen(answers)[i].id == id
                        && forall j | 0 <= j < |Seen(answers)| && j != i :: Seen(answers)[j].id != id
  {
    SessionIsRun(py, snaps, filter, limit, answers);
    hide *;
    StableRowSeenOnce(snaps, created, filter, limit, PagesOf(py, answers), id);
  }
}
