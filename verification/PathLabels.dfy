/**
 _normalize_path: the metric label of a request path. Two regular-expression substitutions, one
 after the other, each of which replaces leftmost non-overlapping matches.
 The class \d of the second expression holds every Unicode decimal digit, so it is a parameter.
 */
module PathLabels {

  predicate IsHex(c: char) {
    '0' <= c <= '9' || 'a' <= c <= 'f' || 'A' <= c <= 'F'
  }

  predicate IsDashPosition(k: int) {
    k == 8 || k == 13 || k == 18 || k == 23
  }

  predicate UuidChar(c: char, k: int) {
    if IsDashPosition(k) then c == '-' else IsHex(c)
  }

  /** 8-4-4-4-12 hexadecimal digits in either case. */
  predicate IsUuid(u: string) {
    |u| == 36 && forall k | 0 <= k < 36 :: UuidChar(u[k], k)
  }

  /** _UUID_RE matches at i. */
  predicate UuidAt(s: string, i: int) {
    0 <= i && i + 36 <= |s| && IsUuid(s[i..i + 36])
  }

  /** _UUID_RE.sub("{id}", s) */
  function UuidSub(s: string): string {
    if s == "" then ""
    else if UuidAt(s, 0) then "{id}" + UuidSub(s[36..])
    else [s[0]] + UuidSub(s[1..])
  }

  /** What the properties need of \d: the characters the paths are built around are not digits. */
  predicate ValidDigits(digit: char -> bool) {
    !digit('/') && !digit('{') && !digit('-') && !digit('\n')
  }

  /** The number of leading digits. */
  function DigitRun(digit: char -> bool, s: string): (n: nat)
    ensures n <= |s|
    ensures forall k | 0 <= k < n :: digit(s[k])
    ensures n < |s| ==> !digit(s[n])
  {
    if s == "" || !digit(s[0]) then 0 else 1 + DigitRun(digit, s[1..])
  }

  /** The lookahead (?=/|$); `$` also stands before a newline that ends the string. */
  predicate SegmentEnds(rest: string) {
    rest == "" || rest[0] == '/' || rest == "\n"
  }

  ghost predicate AllDigits(digit: char -> bool, d: string) {
    d != "" && forall k | 0 <= k < |d| :: digit(d[k])
  }

  /** What follows the slash of a match: n digits up to the end of the segment. */
  ghost predicate DigitSegment(digit: char -> bool, tail: string, n: nat) {
    n <= |tail| && AllDigits(digit, tail[..n]) && SegmentEnds(tail[n..])
  }

  /** _INT_RE matches at the head of s and takes n digits. */
  ghost predicate IntHead(digit: char -> bool, s: string, n: nat) {
    s != "" && s[0] == '/' && DigitSegment(digit, s[1..], n)
  }

  /** _INT_RE matches at i and takes n digits. */
  ghost predicate IntAt(digit: char -> bool, s: string, i: nat, n: nat) {
    i <= |s| && IntHead(digit, s[i..], n)
  }

  /** _INT_RE.sub("/{n}", s) */
  function IntSub(digit: char -> bool, s: string): string
    decreases |s|
  {
    if s == "" then ""
    else
      var tail := s[1..];
      var n := if s[0] == '/' then DigitRun(digit, tail) else 0;
      if n > 0 && SegmentEnds(tail[n..]) then "/{n}" + IntSub(digit, tail[n..])
      else [s[0]] + IntSub(digit, tail)
  }

  function Normalize(digit: char -> bool, path: string): string {
    IntSub(digit, UuidSub(path))
  }

  ghost predicate NoUuid(s: string) {
    forall i :: !UuidAt(s, i)
  }

  ghost predicate NoInt(digit: char -> bool, s: string) {
    forall i: nat, n: nat :: !IntAt(digit, s, i, n)
  }

  ghost predicate Canonical(digit: char -> bool, s: string) {
    NoUuid(s) && NoInt(digit, s)
  }

  function Slashes(s: string): nat {
    if s == "" then 0 else (if s[0] == '/' then 1 else 0) + Slashes(s[1..])
  }

  // ---------- the first substitution ----------

  /** A character out of place rules a UUID out. */
  lemma NotUuid(s: string, i: int, k: int)
    requires 0 <= i && 0 <= k < 36 && i + k < |s|
    requires !UuidChar(s[i + k], k)
    ensures !UuidAt(s, i)
  {
    if i + 36 <= |s| {
      assert s[i..i + 36][k] == s[i + k];
    }
  }

  lemma UuidChars(s: string, i: int, k: int)
    requires UuidAt(s, i) && 0 <= k < 36
    ensures UuidChar(s[i + k], k)
  {
    assert s[i..i + 36][k] == s[i + k];
  }

  /** As long as no placeholder shows, the output is the input. */
  lemma {:induction false} UuidSubPrefix(s: string, n: nat)
    requires n <= |UuidSub(s)|
    requires forall k | 0 <= k < n :: UuidSub(s)[k] != '{'
    ensures n <= |s| && s[..n] == UuidSub(s)[..n]
  {
    var out := UuidSub(s);
    assert UuidAt(s, 0) ==> out[0] == '{';
    if n > 0 {
      if UuidAt(s, 0) {
        assert false;
      } else {
        assert out[1..] == UuidSub(s[1..]);
        UuidSubPrefix(s[1..], n - 1);
        assert s[..n] == [s[0]] + s[1..][..n - 1];
        assert out[..n] == [out[0]] + out[1..][..n - 1];
      }
    }
  }

  lemma NoUuidTail(s: string, n: nat)
    requires NoUuid(s) && n <= |s|
    ensures NoUuid(s[n..])
  {
    forall i
      ensures !UuidAt(s[n..], i)
    {
      if 0 <= i && i + 36 <= |s[n..]| {
        assert s[n..][i..i + 36] == s[i + n..i + n + 36];
        assert !UuidAt(s, i + n);
      }
    }
  }

  lemma NoUuidCons(c: char, rest: string)
    requires NoUuid(rest) && !UuidAt([c] + rest, 0)
    ensures NoUuid([c] + rest)
  {
    var s := [c] + rest;
    forall i
      ensures !UuidAt(s, i)
    {
      if 1 <= i && i + 36 <= |s| {
        assert s[i..i + 36] == rest[i - 1..i + 35];
        assert !UuidAt(rest, i - 1);
      }
    }
  }

  /** A placeholder ends in a brace, so no UUID reaches into it. */
  lemma NoUuidBehindPlaceholder(piece: string, rest: string)
    requires |piece| == 4 && piece[3] == '}'
    requires NoUuid(rest)
    ensures NoUuid(piece + rest)
  {
    var s := piece + rest;
    forall i
      ensures !UuidAt(s, i)
    {
      if 0 <= i < 4 {
        assert s[i + (3 - i)] == '}';
        NotUuid(s, i, 3 - i);
      } else if 4 <= i && i + 36 <= |s| {
        assert s[4..] == rest;
        assert s[i..i + 36] == s[4..][i - 4..i + 32];
        assert !UuidAt(rest, i - 4);
      }
    }
  }

  /** A UUID at the head of the output was at the head of the input. */
  lemma UuidHeadWasThere(s: string)
    requires UuidAt(UuidSub(s), 0)
    ensures UuidAt(s, 0)
  {
    var out := UuidSub(s);
    forall k | 0 <= k < 36
      ensures out[k] != '{'
    {
      UuidChars(out, 0, k);
    }
    UuidSubPrefix(s, 36);
  }

  lemma {:induction false} UuidSubLeavesNone(s: string)
    ensures NoUuid(UuidSub(s))
  {
    if s == "" {
    } else if UuidAt(s, 0) {
      UuidSubLeavesNone(s[36..]);
      NoUuidBehindPlaceholder("{id}", UuidSub(s[36..]));
    } else {
      UuidSubLeavesNone(s[1..]);
      if UuidAt(UuidSub(s), 0) {
        UuidHeadWasThere(s);
      }
      NoUuidCons(s[0], UuidSub(s[1..]));
    }
  }

  /** Without a match the substitution changes nothing. */
  lemma {:induction false} UuidSubIdentity(s: string)
    requires NoUuid(s)
    ensures UuidSub(s) == s
  {
    if s != "" {
      NoUuidTail(s, 1);
      UuidSubIdentity(s[1..]);
      assert !UuidAt(s, 0);
      assert s == [s[0]] + s[1..];
    }
  }

  /** No UUID starts within a when it stands in front of p. */
  ghost predicate UuidClearBefore(a: string, p: string) {
    a == "" || (!UuidAt(a + p, 0) && UuidClearBefore(a[1..], p))
  }

  /** The leftmost match is replaced, what stands before it is kept, and scanning goes on behind it. */
  lemma {:induction false} UuidSubLeftmost(a: string, p: string)
    requires UuidAt(p, 0) && UuidClearBefore(a, p)
    ensures UuidSub(a + p) == a + "{id}" + UuidSub(p[36..])
  {
    if a == "" {
      assert a + p == p;
    } else {
      hide UuidAt;
      assert (a + p)[1..] == a[1..] + p;
      UuidSubLeftmost(a[1..], p);
      assert a == [a[0]] + a[1..];
    }
  }

  lemma UuidBeforeSlash(x: string, y: string)
    requires y != "" && y[0] == '/'
    ensures UuidAt(x + y, 0) <==> UuidAt(x, 0)
  {
    var s := x + y;
    if |x| < 36 {
      assert s[0 + |x|] == '/';
      NotUuid(s, 0, |x|);
    } else {
      assert s[0..36] == x[0..36];
    }
  }

  /** A UUID never reaches across a slash, so neither does the substitution. */
  lemma {:induction false} UuidSubSplits(x: string, y: string)
    requires y != "" && y[0] == '/'
    ensures UuidSub(x + y) == UuidSub(x) + UuidSub(y)
  {
    assert UuidAt(x, 0) ==> |x| >= 36;
    hide UuidAt;
    UuidBeforeSlash(x, y);
    if x == "" {
      assert x + y == y;
    } else if UuidAt(x, 0) {
      UuidSubSplits(x[36..], y);
      assert (x + y)[36..] == x[36..] + y;
    } else {
      UuidSubSplits(x[1..], y);
      assert (x + y)[1..] == x[1..] + y;
    }
  }

  lemma UuidSubSlash(y: string)
    ensures UuidSub("/" + y) == "/" + UuidSub(y)
  {
    NotUuid("/" + y, 0, 0);
    assert ("/" + y)[1..] == y;
  }

  // ---------- the second substitution ----------

  /** Backtracking cannot find another match: the digits taken are the whole run of digits. */
  lemma SegmentTakesRun(digit: char -> bool, tail: string, n: nat)
    requires ValidDigits(digit)
    requires DigitSegment(digit, tail, n)
    ensures n == DigitRun(digit, tail)
  {
    assert forall k | 0 <= k < n :: tail[..n][k] == tail[k];
    assert n < |tail| ==> tail[n] == tail[n..][0];
    assert n < |tail| ==> !digit(tail[n]);
  }

  ghost predicate NoIntHead(digit: char -> bool, s: string) {
    forall n: nat :: !IntHead(digit, s, n)
  }

  lemma IntSubAtMatch(digit: char -> bool, s: string, n: nat)
    requires ValidDigits(digit)
    requires IntHead(digit, s, n)
    ensures IntSub(digit, s) == "/{n}" + IntSub(digit, s[1..][n..])
  {
    SegmentTakesRun(digit, s[1..], n);
  }

  lemma IntSubNoMatch(digit: char -> bool, s: string)
    requires s != "" && NoIntHead(digit, s)
    ensures IntSub(digit, s) == [s[0]] + IntSub(digit, s[1..])
  {
    assert !IntHead(digit, s, DigitRun(digit, s[1..]));
  }

  lemma IntSubCopies(digit: char -> bool, s: string)
    requires IntSub(digit, s) != "" && IntSub(digit, s)[0] != '/'
    ensures s != "" && IntSub(digit, s) == [s[0]] + IntSub(digit, s[1..])
  {
  }

  /** As long as no slash shows, the output is the input, and what follows is the output of the rest. */
  lemma {:induction false} IntSubPrefix(digit: char -> bool, s: string, n: nat)
    requires n <= |IntSub(digit, s)|
    requires forall k | 0 <= k < n :: IntSub(digit, s)[k] != '/'
    ensures n <= |s| && s[..n] == IntSub(digit, s)[..n]
    ensures IntSub(digit, s)[n..] == IntSub(digit, s[n..])
  {
    hide IntSub;
    var out := IntSub(digit, s);
    if n == 0 {
      assert s[0..] == s && out[0..] == out;
    } else {
      IntSubCopies(digit, s);
      var t := s[1..];
      assert out[1..] == IntSub(digit, t);
      IntSubPrefix(digit, t, n - 1);
      assert s[..n] == [s[0]] + t[..n - 1];
      assert s[n..] == t[n - 1..];
      assert out[n..] == out[1..][n - 1..];
    }
  }

  /** If the output ends a segment, so does the input. */
  lemma SegmentEndsKept(digit: char -> bool, s: string)
    requires SegmentEnds(IntSub(digit, s))
    ensures SegmentEnds(s)
  {
    if s != "" && s[0] != '/' {
      var rest := IntSub(digit, s[1..]);
      assert IntSub(digit, s) == [s[0]] + rest;
      assert |rest| == 0;
      assert s[1..] == "";
      assert s == [s[0]];
    }
  }

  /** Digits behind a slash in the output stood there in the input. */
  lemma DigitSegmentWasThere(digit: char -> bool, s: string, n: nat)
    requires ValidDigits(digit)
    requires DigitSegment(digit, IntSub(digit, s), n)
    ensures DigitSegment(digit, s, n)
  {
    var out := IntSub(digit, s);
    assert forall k | 0 <= k < n :: out[..n][k] == out[k];
    IntSubPrefix(digit, s, n);
    SegmentEndsKept(digit, s[n..]);
  }

  lemma NoIntCons(digit: char -> bool, c: char, rest: string)
    requires NoInt(digit, rest) && NoIntHead(digit, [c] + rest)
    ensures NoInt(digit, [c] + rest)
  {
    var s := [c] + rest;
    forall i: nat, n: nat
      ensures !IntAt(digit, s, i, n)
    {
      assert s[0..] == s;
      if 1 <= i <= |s| {
        assert s[i..] == rest[i - 1..];
        assert !IntAt(digit, rest, i - 1, n);
      }
    }
  }

  lemma NoIntBehindPlaceholder(digit: char -> bool, rest: string)
    requires ValidDigits(digit)
    requires NoInt(digit, rest)
    ensures NoInt(digit, "/{n}" + rest)
  {
    var s := "/{n}" + rest;
    forall i: nat, n: nat
      ensures !IntAt(digit, s, i, n)
    {
      if i == 0 {
        assert s[0..] == s;
        assert 0 < n <= |s[1..]| ==> s[1..][..n][0] == '{';
      } else if i < 4 {
        assert s[i..][0] == s[i] != '/';
      } else if i <= |s| {
        assert s[i..] == rest[i - 4..];
        assert !IntAt(digit, rest, i - 4, n);
      }
    }
  }

  lemma NoIntTail(digit: char -> bool, s: string)
    requires s != "" && NoInt(digit, s)
    ensures NoInt(digit, s[1..]) && NoIntHead(digit, s)
  {
    forall i: nat, n: nat
      ensures !IntAt(digit, s[1..], i, n)
    {
      if i <= |s[1..]| {
        assert s[1..][i..] == s[i + 1..];
        assert !IntAt(digit, s, i + 1, n);
      }
    }
    forall n: nat
      ensures !IntHead(digit, s, n)
    {
      assert s[0..] == s;
      assert !IntAt(digit, s, 0, n);
    }
  }

  lemma {:induction false} IntSubLeavesNone(digit: char -> bool, s: string)
    requires ValidDigits(digit)
    ensures NoInt(digit, IntSub(digit, s))
    decreases |s|
  {
    if s == "" {
    } else if n: nat :| IntHead(digit, s, n) {
      IntSubAtMatch(digit, s, n);
      IntSubLeavesNone(digit, s[1..][n..]);
      NoIntBehindPlaceholder(digit, IntSub(digit, s[1..][n..]));
    } else {
      IntSubNoMatch(digit, s);
      IntSubLeavesNone(digit, s[1..]);
      forall n: nat
        ensures !IntHead(digit, IntSub(digit, s), n)
      {
        if IntHead(digit, IntSub(digit, s), n) {
          assert IntSub(digit, s)[1..] == IntSub(digit, s[1..]);
          DigitSegmentWasThere(digit, s[1..], n);
          assert IntHead(digit, s, n);
        }
      }
      NoIntCons(digit, s[0], IntSub(digit, s[1..]));
    }
  }

  lemma {:induction false} IntSubIdentity(digit: char -> bool, s: string)
    requires NoInt(digit, s)
    ensures IntSub(digit, s) == s
  {
    if s != "" {
      NoIntTail(digit, s);
      IntSubIdentity(digit, s[1..]);
      IntSubNoMatch(digit, s);
      assert s == [s[0]] + s[1..];
    }
  }

  /** No integer segment starts within a when it stands in front of p. */
  ghost predicate ClearBefore(digit: char -> bool, a: string, p: string) {
    a == "" || (NoIntHead(digit, a + p) && ClearBefore(digit, a[1..], p))
  }

  /** The leftmost integer segment is replaced and scanning goes on at the slash or end behind it. */
  lemma {:induction false} IntSubLeftmost(digit: char -> bool, a: string, p: string, n: nat)
    requires ValidDigits(digit)
    requires ClearBefore(digit, a, p)
    requires IntHead(digit, p, n)
    ensures IntSub(digit, a + p) == a + "/{n}" + IntSub(digit, p[1..][n..])
  {
    hide IntSub;
    if a == "" {
      assert a + p == p;
      IntSubAtMatch(digit, p, n);
    } else {
      IntSubNoMatch(digit, a + p);
      assert (a + p)[1..] == a[1..] + p;
      IntSubLeftmost(digit, a[1..], p, n);
      assert a == [a[0]] + a[1..];
    }
  }

  lemma UuidHeadKept(digit: char -> bool, s: string)
    requires UuidAt(IntSub(digit, s), 0)
    ensures UuidAt(s, 0)
  {
    var out := IntSub(digit, s);
    forall k | 0 <= k < 36
      ensures out[k] != '/'
    {
      UuidChars(out, 0, k);
    }
    IntSubPrefix(digit, s, 36);
  }

  /** The second substitution brings no UUID about. */
  lemma {:induction false} IntSubKeepsNoUuid(digit: char -> bool, s: string)
    requires ValidDigits(digit)
    requires NoUuid(s)
    ensures NoUuid(IntSub(digit, s))
    decreases |s|
  {
    if s == "" {
    } else if n: nat :| IntHead(digit, s, n) {
      IntSubAtMatch(digit, s, n);
      NoUuidTail(s, 1);
      NoUuidTail(s[1..], n);
      IntSubKeepsNoUuid(digit, s[1..][n..]);
      NoUuidBehindPlaceholder("/{n}", IntSub(digit, s[1..][n..]));
    } else {
      IntSubNoMatch(digit, s);
      NoUuidTail(s, 1);
      IntSubKeepsNoUuid(digit, s[1..]);
      if UuidAt(IntSub(digit, s), 0) {
        UuidHeadKept(digit, s);
      }
      NoUuidCons(s[0], IntSub(digit, s[1..]));
    }
  }

  // ---------- the whole normalisation ----------

  /** The label holds no UUID and no integer segment: every such path maps to a canonical one. */
  lemma NormalizeIsCanonical(digit: char -> bool, path: string)
    requires ValidDigits(digit)
    ensures Canonical(digit, Normalize(digit, path))
  {
    UuidSubLeavesNone(path);
    IntSubKeepsNoUuid(digit, UuidSub(path));
    IntSubLeavesNone(digit, UuidSub(path));
  }

  /** The canonical paths are exactly the ones that normalisation leaves as they are. */
  lemma CanonicalIffFixed(digit: char -> bool, path: string)
    requires ValidDigits(digit)
    ensures Normalize(digit, path) == path <==> Canonical(digit, path)
  {
    if Canonical(digit, path) {
      UuidSubIdentity(path);
      IntSubIdentity(digit, path);
    }
    NormalizeIsCanonical(digit, path);
  }

  lemma NormalizeIdempotent(digit: char -> bool, path: string)
    requires ValidDigits(digit)
    ensures Normalize(digit, Normalize(digit, path)) == Normalize(digit, path)
  {
    NormalizeIsCanonical(digit, path);
    CanonicalIffFixed(digit, Normalize(digit, path));
  }

  lemma {:induction false} SlashesAppend(s: string, t: string)
    ensures Slashes(s + t) == Slashes(s) + Slashes(t)
  {
    if s == "" {
      assert s + t == t;
    } else {
      SlashesAppend(s[1..], t);
      assert (s + t)[1..] == s[1..] + t;
    }
  }

  lemma {:induction false} NoSlashes(s: string)
    requires forall k | 0 <= k < |s| :: s[k] != '/'
    ensures Slashes(s) == 0
  {
    if s != "" {
      NoSlashes(s[1..]);
    }
  }

  lemma {:induction false} UuidSubKeepsSlashes(s: string)
    ensures Slashes(UuidSub(s)) == Slashes(s)
  {
    if s != "" {
      if UuidAt(s, 0) {
        forall k | 0 <= k < 36
          ensures s[..36][k] != '/'
        {
          UuidChars(s, 0, k);
        }
        NoSlashes(s[..36]);
        NoSlashes("{id}");
        SlashesAppend(s[..36], s[36..]);
        assert s == s[..36] + s[36..];
        SlashesAppend("{id}", UuidSub(s[36..]));
        UuidSubKeepsSlashes(s[36..]);
      } else {
        SlashesAppend([s[0]], s[1..]);
        assert s == [s[0]] + s[1..];
        SlashesAppend([s[0]], UuidSub(s[1..]));
        UuidSubKeepsSlashes(s[1..]);
      }
    }
  }

  lemma {:induction false} IntSubKeepsSlashes(digit: char -> bool, s: string)
    requires ValidDigits(digit)
    ensures Slashes(IntSub(digit, s)) == Slashes(s)
    decreases |s|
  {
    if s == "" {
    } else if n: nat :| IntHead(digit, s, n) {
      var tail := s[1..];
      IntSubAtMatch(digit, s, n);
      IntSubKeepsSlashes(digit, tail[n..]);
      SlashesInMatch(digit, tail, n);
      PlaceholderSlashes(IntSub(digit, tail[n..]));
    } else {
      IntSubNoMatch(digit, s);
      SlashesAppend([s[0]], IntSub(digit, s[1..]));
      SlashesAppend([s[0]], s[1..]);
      assert s == [s[0]] + s[1..];
      IntSubKeepsSlashes(digit, s[1..]);
    }
  }

  lemma SlashesInMatch(digit: char -> bool, tail: string, n: nat)
    requires ValidDigits(digit)
    requires DigitSegment(digit, tail, n)
    ensures Slashes(tail) == Slashes(tail[n..])
  {
    NoSlashes(tail[..n]);
    SlashesAppend(tail[..n], tail[n..]);
    assert tail == tail[..n] + tail[n..];
  }

  lemma PlaceholderSlashes(rest: string)
    ensures Slashes("/{n}" + rest) == 1 + Slashes(rest)
  {
    NoSlashes("{n}");
    SlashesAppend("/", "{n}");
    assert "/" + "{n}" == "/{n}";
    SlashesAppend("/{n}", rest);
  }

  /** A label has as many segments as the path. */
  lemma NormalizeKeepsSlashes(digit: char -> bool, path: string)
    requires ValidDigits(digit)
    ensures Slashes(Normalize(digit, path)) == Slashes(path)
  {
    UuidSubKeepsSlashes(path);
    IntSubKeepsSlashes(digit, UuidSub(path));
  }

  lemma NoDashNoUuid(s: string)
    requires forall k | 0 <= k < |s| :: s[k] != '-'
    ensures NoUuid(s)
  {
    forall i
      ensures !UuidAt(s, i)
    {
      if 0 <= i && i + 8 < |s| {
        NotUuid(s, i, 8);
      }
    }
  }

  /** The integer scan in front of a slash does not depend on what follows the slash. */
  lemma {:induction false} IntSubReplace(digit: char -> bool, a: string, x: string, y: string)
    requires ValidDigits(digit)
    requires IntSub(digit, "/" + x) == IntSub(digit, "/" + y)
    ensures IntSub(digit, a + ("/" + x)) == IntSub(digit, a + ("/" + y))
    decreases |a|
  {
    hide IntSub;
    var p, q := "/" + x, "/" + y;
    if a == "" {
      assert a + p == p && a + q == q;
    } else if n: nat :| IntHead(digit, a + p, n) {
      IntHeadLocal(digit, a, p, q, n);
      IntSubAtMatch(digit, a + p, n);
      IntSubAtMatch(digit, a + q, n);
      IntSubReplace(digit, a[1..][n..], x, y);
    } else {
      NoIntHeadLocal(digit, a, p, q);
      IntSubNoMatch(digit, a + p);
      IntSubNoMatch(digit, a + q);
      IntSubReplace(digit, a[1..], x, y);
      assert (a + p)[1..] == a[1..] + p && (a + q)[1..] == a[1..] + q;
    }
  }

  lemma IntHeadLocal(digit: char -> bool, a: string, p: string, q: string, n: nat)
    requires ValidDigits(digit)
    requires a != "" && p != "" && q != "" && p[0] == q[0] == '/'
    requires IntHead(digit, a + p, n)
    ensures n < |a| && IntHead(digit, a + q, n)
    ensures (a + p)[1..][n..] == a[1..][n..] + p && (a + q)[1..][n..] == a[1..][n..] + q
  {
    var b := a[1..];
    assert (a + p)[1..] == b + p && (a + q)[1..] == b + q;
    DigitSegmentLocal(digit, b, p, q, n);
  }

  lemma NoIntHeadLocal(digit: char -> bool, a: string, p: string, q: string)
    requires ValidDigits(digit)
    requires a != "" && p != "" && q != "" && p[0] == q[0] == '/'
    requires NoIntHead(digit, a + p)
    ensures NoIntHead(digit, a + q)
  {
    forall n: nat
      ensures !IntHead(digit, a + q, n)
    {
      if IntHead(digit, a + q, n) {
        IntHeadLocal(digit, a, q, p, n);
      }
    }
  }

  lemma DigitSegmentLocal(digit: char -> bool, b: string, p: string, q: string, n: nat)
    requires ValidDigits(digit)
    requires p != "" && q != "" && p[0] == q[0] == '/'
    requires DigitSegment(digit, b + p, n)
    ensures n <= |b| && DigitSegment(digit, b + q, n)
    ensures (b + p)[n..] == b[n..] + p && (b + q)[n..] == b[n..] + q
  {
    assert (b + p)[|b|] == '/';
    assert forall k | 0 <= k < n :: (b + p)[..n][k] == (b + p)[k];
    assert n <= |b|;
    assert (b + p)[..n] == b[..n] == (b + q)[..n];
    assert (b + p)[n..] == b[n..] + p && (b + q)[n..] == b[n..] + q;
    assert (b[n..] + p)[|b| - n] == '/';
    assert b[n..] == "" || b[n..][0] == (b[n..] + p)[0] == (b[n..] + q)[0];
  }

  lemma IntSubDigits(digit: char -> bool, d: string, b: string)
    requires ValidDigits(digit)
    requires AllDigits(digit, d) && SegmentEnds(b)
    ensures IntSub(digit, "/" + (d + b)) == "/{n}" + IntSub(digit, b)
  {
    var tail := d + b;
    assert tail[..|d|] == d && tail[|d|..] == b;
    assert ("/" + tail)[1..] == tail;
    IntSubAtMatch(digit, "/" + tail, |d|);
  }

  lemma UuidSubDigits(digit: char -> bool, d: string, b: string)
    requires ValidDigits(digit)
    requires AllDigits(digit, d) && SegmentEnds(b)
    ensures UuidSub(d + b) == d + UuidSub(b)
    ensures SegmentEnds(UuidSub(b))
  {
    NoDashNoUuid(d);
    UuidSubIdentity(d);
    if b == "" {
      assert d + b == d;
    } else if b[0] == '/' {
      UuidSubSplits(d, b);
      UuidSubSlash(b[1..]);
      assert "/" + b[1..] == b;
    } else {
      NoDashNoUuid(d + b);
      UuidSubIdentity(d + b);
      NoDashNoUuid(b);
      UuidSubIdentity(b);
    }
  }

  lemma Regroup(a: string, d: string, b: string)
    ensures a + "/" + d + b == a + ("/" + (d + b))
  {
  }

  /** The first substitution works segment by segment. */
  lemma UuidSubSegment(a: string, y: string)
    ensures UuidSub(a + ("/" + y)) == UuidSub(a) + ("/" + UuidSub(y))
  {
    UuidSubSplits(a, "/" + y);
    UuidSubSlash(y);
  }

  /** Which number stands in an all-digit segment does not show in the label. */
  lemma DigitsAreForgotten(digit: char -> bool, a: string, d: string, e: string, b: string)
    requires ValidDigits(digit)
    requires AllDigits(digit, d) && AllDigits(digit, e) && SegmentEnds(b)
    ensures Normalize(digit, a + "/" + d + b) == Normalize(digit, a + "/" + e + b)
  {
    Regroup(a, d, b);
    Regroup(a, e, b);
    UuidSubSegment(a, d + b);
    UuidSubSegment(a, e + b);
    UuidSubDigits(digit, d, b);
    UuidSubDigits(digit, e, b);
    IntSubDigits(digit, d, UuidSub(b));
    IntSubDigits(digit, e, UuidSub(b));
    IntSubReplace(digit, UuidSub(a), d + UuidSub(b), e + UuidSub(b));
  }

  /** Which UUID stands at the head of a segment does not show in the label either. */
  lemma UuidsAreForgotten(digit: char -> bool, a: string, u: string, v: string, b: string)
    requires IsUuid(u) && IsUuid(v)
    ensures Normalize(digit, a + "/" + u + b) == Normalize(digit, a + "/" + v + b)
  {
    Regroup(a, u, b);
    Regroup(a, v, b);
    UuidSubSegment(a, u + b);
    UuidSubSegment(a, v + b);
    assert (u + b)[0..36] == u && (v + b)[0..36] == v;
    assert (u + b)[36..] == b && (v + b)[36..] == b;
  }
}
