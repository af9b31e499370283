/**
 The matchers of PathLabels against what they are meant for: the texts of UUIDs, and whole segments
 of digits.
 */
module PathShapes {
  import Cursor
  import opened Digits
  import opened PathLabels

  // ---------- UUIDs ----------

  /** The letter in upper case. */
  function Upper(c: char): char {
    if 'a' <= c <= 'f' then 'A' + (c - 'a') else c
  }

  /** The text in whatever case, letter by letter. */
  predicate SameButCase(u: string, text: string) {
    |u| == |text| && forall k | 0 <= k < |u| :: u[k] == text[k] || u[k] == Upper(text[k])
  }

  predicate DashesInPlace(u: string) {
    |u| == 36 && forall k | 0 <= k < 36 :: u[k] == '-' <==> k in {8, 13, 18, 23}
  }

  lemma DigitIsHex(c: char)
    ensures DigitValue(c).Some? <==> IsHex(c)
    ensures DigitValue(c).Some? ==> DigitValue(c).value < 16 && c != '-'
  {
  }

  /** The characters of str(uuid). */
  lemma TextShape(id: nat)
    ensures DashesInPlace(Cursor.UuidText(id))
    ensures forall k | 0 <= k < 36 && k !in {8, 13, 18, 23} :: IsHex(Cursor.UuidText(id)[k])
  {
    var h := Format(16, id, 32);
    FormatChars(16, id, 32);
    forall k | 0 <= k < 32
      ensures IsHex(h[k]) && h[k] != '-'
    {
      DigitIsHex(h[k]);
    }
    hide IsHex;
  }

  /** Every UUID, its letters in any case, is taken for one. */
  lemma EveryUuidMatches(id: nat, u: string)
    requires SameButCase(u, Cursor.UuidText(id))
    ensures IsUuid(u)
  {
    TextShape(id);
    hide Cursor.UuidText;
  }

  lemma {:induction false} HexReads(s: string)
    requires forall k | 0 <= k < |s| :: IsHex(s[k])
    ensures Read(16, s).Some?
  {
    if s != "" {
      HexReads(s[..|s| - 1]);
      DigitIsHex(s[|s| - 1]);
    }
  }

  lemma {:induction false} ReadsHex(s: string)
    requires Read(16, s).Some?
    ensures forall k | 0 <= k < |s| :: IsHex(s[k])
  {
    if s != "" {
      ReadsHex(s[..|s| - 1]);
      DigitIsHex(s[|s| - 1]);
      assert forall k | 0 <= k < |s| - 1 :: s[k] == s[..|s| - 1][k];
    }
  }

  /** The digits of a text that has its dashes where UUIDs have them. */
  lemma DigitsBetween(u: string)
    requires DashesInPlace(u)
    ensures Cursor.DropDashes(u) == u[..8] + (u[9..13] + (u[14..18] + (u[19..23] + u[24..])))
  {
    var g0, g1, g2, g3, g4 := u[..8], u[9..13], u[14..18], u[19..23], u[24..];
    assert Cursor.NoDash(g0) && Cursor.NoDash(g1) && Cursor.NoDash(g2) && Cursor.NoDash(g3) && Cursor.NoDash(g4);
    assert u == g0 + ("-" + (g1 + ("-" + (g2 + ("-" + (g3 + ("-" + g4)))))));
    assert Cursor.DropDashes("") == "";
    hide Cursor.DropDashes, Cursor.NoDash, DashesInPlace;
    assert g4 + "" == g4;
    Cursor.DropDashesSplits(g4, "");
    Cursor.GroupDropped(g3, g4);
    Cursor.GroupDropped(g2, g3 + ("-" + g4));
    Cursor.GroupDropped(g1, g2 + ("-" + (g3 + ("-" + g4))));
    Cursor.GroupDropped(g0, g1 + ("-" + (g2 + ("-" + (g3 + ("-" + g4))))));
  }

  /** Exactly the texts that uuid.UUID reads and that have their dashes in place are taken for UUIDs. */
  lemma MatchesExactlyUuids(u: string)
    ensures IsUuid(u) <==> DashesInPlace(u) && Cursor.ReadUuid(u).Some?
  {
    if IsUuid(u) {
      forall k | 0 <= k < 36
        ensures u[k] == '-' <==> k in {8, 13, 18, 23}
      {
        assert UuidChar(u[k], k);
      }
    }
    if DashesInPlace(u) {
      DigitsBetween(u);
      var h := Cursor.DropDashes(u);
      assert forall k | 0 <= k < 36 && k !in {8, 13, 18, 23} :: u[k] == h[Skip(k)];
      assert forall k | 0 <= k < 32 :: h[k] == u[Unskip(k)];
      hide Cursor.DropDashes;
      if IsUuid(u) {
        forall k | 0 <= k < 32
          ensures IsHex(h[k])
        {
          assert UuidChar(u[Unskip(k)], Unskip(k));
        }
        HexReads(h);
      }
      if Read(16, h).Some? {
        ReadsHex(h);
        hide Read;
        forall k | 0 <= k < 36
          ensures UuidChar(u[k], k)
        {
          assert k !in {8, 13, 18, 23} ==> u[k] == h[Skip(k)];
        }
      }
    }
  }

  /** Where a character of a UUID stands among its digits, and back. */
  function Skip(k: int): int {
    if k < 8 then k else if k < 13 then k - 1 else if k < 18 then k - 2 else if k < 23 then k - 3 else k - 4
  }

  function Unskip(k: int): int {
    if k < 8 then k else if k < 12 then k + 1 else if k < 16 then k + 2 else if k < 20 then k + 3 else k + 4
  }

  // ---------- segments ----------

  /** The number of characters in front of the first slash. */
  function UntilSlash(s: string): (n: nat)
    ensures n <= |s|
    ensures forall k | 0 <= k < n :: s[k] != '/'
    ensures n < |s| ==> s[n] == '/'
  {
    if s == "" || s[0] == '/' then 0 else 1 + UntilSlash(s[1..])
  }

  /** The label of one segment: a number is replaced, unless it is what stands in front of the first slash. */
  function SegmentLabel(digit: char -> bool, segment: string, first: bool): string {
    if !first && segment != "" && (forall k | 0 <= k < |segment| :: digit(segment[k])) then "{n}" else segment
  }

  /** The path taken apart at its slashes. */
  function BySegments(digit: char -> bool, path: string, first: bool): string
    decreases |path|
  {
    var n := UntilSlash(path);
    var shown := SegmentLabel(digit, path[..n], first);
    if n == |path| then shown else shown + ("/" + BySegments(digit, path[n + 1..], false))
  }

  /** What is copied up to the next slash. */
  lemma {:induction false} IntSubCopiesSegment(digit: char -> bool, segment: string, rest: string)
    requires forall k | 0 <= k < |segment| :: segment[k] != '/'
    ensures IntSub(digit, segment + rest) == segment + IntSub(digit, rest)
    decreases |segment|
  {
    if segment == "" {
      assert segment + rest == rest;
    } else {
      var s := segment + rest;
      assert s[0] == segment[0] && s[1..] == segment[1..] + rest;
      IntSubCopiesSegment(digit, segment[1..], rest);
      assert segment == [segment[0]] + segment[1..];
    }
  }

  lemma {:induction false} DigitRunOf(digit: char -> bool, segment: string, rest: string)
    requires forall k | 0 <= k < |segment| :: digit(segment[k])
    requires rest == "" || !digit(rest[0])
    ensures DigitRun(digit, segment + rest) == |segment|
  {
    assert forall k | 0 <= k < |segment| :: (segment + rest)[k] == segment[k];
    assert rest != "" ==> (segment + rest)[|segment|] == rest[0];
  }

  /** One segment behind its slash; what follows is the end, a last newline, or the next slash. */
  lemma SegmentStep(digit: char -> bool, segment: string, rest: string)
    requires ValidDigits(digit)
    requires forall k | 0 <= k < |segment| :: segment[k] != '/'
    requires SegmentEnds(rest)
    requires rest == "" ==> segment == "" || segment[|segment| - 1] != '\n'
    ensures IntSub(digit, "/" + (segment + rest)) == "/" + (SegmentLabel(digit, segment, false) + IntSub(digit, rest))
  {
    if segment != "" && forall k | 0 <= k < |segment| :: digit(segment[k]) {
      NumberStep(digit, segment, rest);
    } else {
      RunStaysInside(digit, segment, rest);
      IntSubAtSlash(digit, segment + rest);
      hide IntSub, DigitRun, SegmentEnds;
      IntSubCopiesSegment(digit, segment, rest);
    }
  }

  lemma NumberStep(digit: char -> bool, segment: string, rest: string)
    requires ValidDigits(digit) && SegmentEnds(rest)
    requires segment != "" && forall k | 0 <= k < |segment| :: digit(segment[k])
    ensures IntSub(digit, "/" + (segment + rest)) == "/" + ("{n}" + IntSub(digit, rest))
  {
    DigitRunOf(digit, segment, rest);
    IntSubAtSlash(digit, segment + rest);
    assert (segment + rest)[|segment|..] == rest;
    hide *;
    PlaceholderJoins(IntSub(digit, rest));
  }

  lemma PlaceholderJoins(more: string)
    ensures "/{n}" + more == "/" + ("{n}" + more)
  {
  }

  lemma IntSubAtSlash(digit: char -> bool, tail: string)
    ensures var n := DigitRun(digit, tail);
            && IntSub(digit, "/" + tail)
               == if n > 0 && SegmentEnds(tail[n..]) then "/{n}" + IntSub(digit, tail[n..])
                  else "/" + IntSub(digit, tail)
  {
    assert ("/" + tail)[1..] == tail;
  }

  /** The run of digits of another segment is not followed by an end. */
  lemma RunStaysInside(digit: char -> bool, segment: string, rest: string)
    requires ValidDigits(digit)
    requires forall k | 0 <= k < |segment| :: segment[k] != '/'
    requires SegmentEnds(rest)
    requires rest == "" ==> segment == "" || segment[|segment| - 1] != '\n'
    requires segment == "" || exists k :: 0 <= k < |segment| && !digit(segment[k])
    ensures var n := DigitRun(digit, segment + rest);
            n == 0 || (n < |segment| && !SegmentEnds((segment + rest)[n..]))
  {
    var tail := segment + rest;
    var n := DigitRun(digit, tail);
    if segment != "" {
      var k :| 0 <= k < |segment| && !digit(segment[k]);
      assert tail[k] == segment[k];
      assert n <= k;
      var ending := tail[n..];
      assert ending[0] == segment[n] && |ending| == |segment| - n + |rest|;
      assert |ending| == 1 ==> rest == "" && n == |segment| - 1;
    } else {
      assert tail == rest;
    }
  }

  /** A last newline is left alone. */
  lemma LastNewline(digit: char -> bool)
    ensures IntSub(digit, "\n") == "\n" && IntSub(digit, "") == ""
  {
    assert "\n"[1..] == "";
  }

  /** Behind a slash, segment by segment. */
  lemma {:induction false} SubSegments(digit: char -> bool, path: string, end: string)
    requires ValidDigits(digit) && (end == "" || end == "\n")
    requires end == "" ==> path == "" || path[|path| - 1] != '\n'
    ensures IntSub(digit, "/" + (path + end)) == "/" + (BySegments(digit, path, false) + end)
    decreases |path|
  {
    LastNewline(digit);
    EndsEnd(end);
    LaterSegment(digit, path);
    hide *;
    var n := UntilSlash(path);
    if n == |path| {
      SegmentStep(digit, path, end);
    } else {
      var more := path[n + 1..];
      SplitAtSlash(path, n, end);
      SubSegments(digit, more, end);
      MoreSegments(digit, path[..n], more, end, BySegments(digit, more, false));
    }
  }

  lemma MoreSegments(digit: char -> bool, segment: string, more: string, end: string, shown: string)
    requires ValidDigits(digit) && forall k | 0 <= k < |segment| :: segment[k] != '/'
    requires IntSub(digit, "/" + (more + end)) == "/" + (shown + end)
    ensures IntSub(digit, "/" + (segment + ("/" + (more + end))))
         == "/" + ((SegmentLabel(digit, segment, false) + ("/" + shown)) + end)
  {
    SlashEnds(more + end);
    hide *;
    SegmentStep(digit, segment, "/" + (more + end));
    Joined(SegmentLabel(digit, segment, false), shown, end);
  }

  lemma EndsEnd(end: string)
    requires end == "" || end == "\n"
    ensures SegmentEnds(end)
  {
  }

  lemma SlashEnds(rest: string)
    ensures SegmentEnds("/" + rest)
  {
  }

  lemma LaterSegment(digit: char -> bool, path: string)
    ensures var n := UntilSlash(path);
            && BySegments(digit, path, false)
               == if n == |path| then SegmentLabel(digit, path, false)
                  else SegmentLabel(digit, path[..n], false) + ("/" + BySegments(digit, path[n + 1..], false))
  {
    var n := UntilSlash(path);
    hide UntilSlash, SegmentLabel;
    assert n == |path| ==> path[..n] == path;
  }

  lemma SplitAtSlash(path: string, n: nat, end: string)
    requires n < |path| && path[n] == '/'
    ensures path + end == path[..n] + ("/" + (path[n + 1..] + end))
    ensures path[n + 1..] == "" || path[n + 1..][|path| - n - 2] == path[|path| - 1]
  {
    assert path[n..] == "/" + path[n + 1..];
  }

  lemma Joined(shown: string, more: string, end: string)
    ensures shown + ("/" + (more + end)) == (shown + ("/" + more)) + end
  {
  }

  /**
   The second substitution, segment by segment: of every path, a last newline aside, exactly the
   segments behind a slash that consist of digits become "{n}".
   */
  lemma IntSubIsBySegments(digit: char -> bool, path: string, end: string)
    requires ValidDigits(digit) && (end == "" || end == "\n")
    requires end == "" ==> path == "" || path[|path| - 1] != '\n'
    ensures IntSub(digit, path + end) == BySegments(digit, path, true) + end
  {
    LastNewline(digit);
    FirstSegment(digit, path);
    hide IntSub, BySegments, ValidDigits;
    var n := UntilSlash(path);
    if n == |path| {
      IntSubCopiesSegment(digit, path, end);
    } else {
      var more := path[n + 1..];
      SplitAtSlash(path, n, end);
      IntSubCopiesSegment(digit, path[..n], "/" + (more + end));
      SubSegments(digit, more, end);
      Joined(path[..n], BySegments(digit, more, false), end);
    }
  }

  lemma FirstSegment(digit: char -> bool, path: string)
    ensures var n := UntilSlash(path);
            && BySegments(digit, path, true)
               == if n == |path| then path else path[..n] + ("/" + BySegments(digit, path[n + 1..], false))
  {
    var n := UntilSlash(path);
    hide UntilSlash;
    assert n == |path| ==> path[..n] == path;
  }

  // ---------- the labels of identifiers ----------

  /** A segment that is a UUID, its letters in any case. */
  lemma UuidIsReplaced(digit: char -> bool, id: nat, u: string)
    requires ValidDigits(digit) && SameButCase(u, Cursor.UuidText(id))
    ensures Normalize(digit, "/" + u) == "/{id}"
  {
    EveryUuidMatches(id, u);
    UuidAlone(u);
    UuidSubSlash(u);
    hide UuidSub, SameButCase, IsUuid;
    PlaceholderStays(digit);
    assert "/" + "{id}" == "/{id}";
  }

  lemma PlaceholderStays(digit: char -> bool)
    requires ValidDigits(digit)
    ensures IntSub(digit, "/{id}") == "/{id}"
  {
    IntSubAtSlash(digit, "{id}");
    assert DigitRun(digit, "{id}") == 0;
    IntSubCopiesSegment(digit, "{id}", "");
    hide IntSub;
    LastNewline(digit);
    assert "/" + "{id}" == "/{id}" && "{id}" + "" == "{id}";
  }

  /** A segment that is a number. */
  lemma NumberIsReplaced(digit: char -> bool, d: string)
    requires ValidDigits(digit) && d != "" && forall k | 0 <= k < |d| :: digit(d[k])
    ensures IntSub(digit, "/" + d) == "/{n}"
  {
    IntSubAtSlash(digit, d);
    DigitRunOf(digit, d, "");
    LastNewline(digit);
    assert d + "" == d && d[|d|..] == "" && "/{n}" + "" == "/{n}";
    hide IntSub;
  }

  lemma UuidAlone(u: string)
    requires IsUuid(u)
    ensures UuidSub(u) == "{id}"
  {
    assert u[0..0 + 36] == u && u[36..] == "";
    assert UuidAt(u, 0);
    assert UuidSub("") == "" && "{id}" + "" == "{id}";
  }
}
