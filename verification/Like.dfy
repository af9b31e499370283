/**
 escape_like and the search it protects. The matcher is the one of SQL LIKE with the default
 escape character: '%' stands for any run of characters, '_' for any one character, and a
 backslash makes the next character stand for itself.
 */
module Like {
  predicate IsMeta(c: char) {
    c == '%' || c == '_' || c == '\\'
  }

  /** escape_like: re.sub puts a backslash before every metacharacter. */
  function Escape(s: string): string {
    if s == "" then ""
    else if IsMeta(s[0]) then ['\\', s[0]] + Escape(s[1..])
    else [s[0]] + Escape(s[1..])
  }

  /** Takes the backslashes away again. */
  function Unescape(p: string): string {
    if p == "" then ""
    else if p[0] == '\\' && |p| > 1 then [p[1]] + Unescape(p[2..])
    else [p[0]] + Unescape(p[1..])
  }

  /** The LIKE matcher. A pattern that ends inside an escape matches nothing. */
  predicate Matches(p: string, t: string)
    decreases |p|, |t|
  {
    if p == "" then t == ""
    else if p[0] == '%' then Matches(p[1..], t) || (t != "" && Matches(p, t[1..]))
    else if p[0] == '_' then t != "" && Matches(p[1..], t[1..])
    else if p[0] == '\\' then |p| > 1 && t != "" && t[0] == p[1] && Matches(p[2..], t[1..])
    else t != "" && t[0] == p[0] && Matches(p[1..], t[1..])
  }

  ghost predicate Contains(t: string, s: string) {
    exists i :: OccursAt(t, s, i)
  }

  predicate OccursAt(t: string, s: string, i: int) {
    0 <= i && i + |s| <= |t| && t[i..i + |s|] == s
  }

  /** The pattern that _apply_filters and the audit log build around a search string. */
  function SearchPattern(s: string): string {
    "%" + Escape(s) + "%"
  }

  lemma {:induction false} PercentMatchesAll(t: string)
    ensures Matches("%", t)
  {
    if t != "" {
      PercentMatchesAll(t[1..]);
    }
  }

  /** Escaped text followed by '%' matches exactly the strings that begin with the text. */
  lemma {:induction false} EscapedPrefix(s: string, t: string)
    ensures Matches(Escape(s) + "%", t) <==> s <= t
  {
    var p := Escape(s) + "%";
    if s == "" {
      assert p == "%";
      PercentMatchesAll(t);
    } else {
      var rest := Escape(s[1..]) + "%";
      if IsMeta(s[0]) {
        assert p == ['\\', s[0]] + rest;
        assert p[2..] == rest;
      } else {
        assert p == [s[0]] + rest;
        assert p[1..] == rest;
      }
      if t != "" {
        EscapedPrefix(s[1..], t[1..]);
        assert s == [s[0]] + s[1..] && t == [t[0]] + t[1..];
      }
    }
  }

  /** A leading '%' tries every suffix. */
  lemma {:induction false} LeadingPercent(p: string, t: string)
    ensures Matches("%" + p, t) <==> exists i :: 0 <= i <= |t| && Matches(p, t[i..])
    decreases |t|
  {
    var q := "%" + p;
    assert q[1..] == p;
    assert t[0..] == t;
    if t == "" {
      assert forall i | 0 <= i <= |t| :: t[i..] == t;
    } else {
      LeadingPercent(p, t[1..]);
      assert forall i | 0 <= i <= |t[1..]| :: t[1..][i..] == t[i + 1..];
      if i :| 0 <= i <= |t| && Matches(p, t[i..]) {
        if i > 0 {
          assert t[1..][i - 1..] == t[i..];
        }
      }
    }
  }

  /** The search is exact: the pattern accepts t just when the searched text occurs in t. */
  lemma SearchIsExact(s: string, t: string)
    ensures Matches(SearchPattern(s), t) <==> Contains(t, s)
  {
    assert SearchPattern(s) == "%" + (Escape(s) + "%");
    LeadingPercent(Escape(s) + "%", t);
    forall i | 0 <= i <= |t|
      ensures Matches(Escape(s) + "%", t[i..]) <==> OccursAt(t, s, i)
    {
      EscapedPrefix(s, t[i..]);
      if OccursAt(t, s, i) {
        assert t[i..][..|s|] == s;
      }
      if s <= t[i..] {
        assert t[i..i + |s|] == t[i..][..|s|] == s;
      }
    }
    if Contains(t, s) {
      var i :| OccursAt(t, s, i);
      assert Matches(Escape(s) + "%", t[i..]);
    }
  }

  lemma {:induction false} UnescapeInverts(s: string)
    ensures Unescape(Escape(s)) == s
  {
    if s != "" {
      UnescapeInverts(s[1..]);
      if IsMeta(s[0]) {
        assert Escape(s)[2..] == Escape(s[1..]);
      } else {
        assert Escape(s)[1..] == Escape(s[1..]);
      }
    }
  }

  lemma EscapeInjective(a: string, b: string)
    requires Escape(a) == Escape(b)
    ensures a == b
  {
    UnescapeInverts(a);
    UnescapeInverts(b);
  }

  /** Only metacharacters are escaped: each costs one character more, and other text stays as it is. */
  lemma {:induction false} EscapeIsMinimal(s: string)
    ensures |Escape(s)| == |s| + |Metas(s)|
    ensures Metas(s) == "" ==> Escape(s) == s
  {
    if s != "" {
      EscapeIsMinimal(s[1..]);
      assert s == [s[0]] + s[1..];
    }
  }

  /** The metacharacters of a text. */
  function Metas(s: string): string {
    if s == "" then "" else (if IsMeta(s[0]) then [s[0]] else "") + Metas(s[1..])
  }

  // ---------- ILIKE ----------

  function Fold(fold: char -> char, s: string): (r: string)
    ensures |r| == |s|
    ensures forall i | 0 <= i < |s| :: r[i] == fold(s[i])
  {
    seq(|s|, i requires 0 <= i < |s| => fold(s[i]))
  }

  /** ILIKE folds the case of pattern and text and matches the results. */
  predicate IMatches(fold: char -> char, p: string, t: string) {
    Matches(Fold(fold, p), Fold(fold, t))
  }

  /** Case folding leaves the three metacharacters alone. */
  predicate FixesMeta(fold: char -> char) {
    fold('%') == '%' && fold('_') == '_' && fold('\\') == '\\'
  }

  /** No other character folds to a metacharacter. */
  ghost predicate KeepsOrdinary(fold: char -> char) {
    forall c :: IsMeta(fold(c)) ==> IsMeta(c)
  }

  lemma {:induction false} FoldEscape(fold: char -> char, s: string)
    requires FixesMeta(fold) && KeepsOrdinary(fold)
    ensures Fold(fold, Escape(s)) == Escape(Fold(fold, s))
  {
    if s != "" {
      FoldEscape(fold, s[1..]);
      var f := Fold(fold, s);
      assert f[1..] == Fold(fold, s[1..]);
      if IsMeta(s[0]) {
        assert Escape(f) == ['\\', s[0]] + Escape(f[1..]);
      } else {
        assert Escape(f) == [f[0]] + Escape(f[1..]);
      }
    }
  }

  ghost predicate SearchExactUnder(fold: char -> char, s: string, t: string) {
    IMatches(fold, SearchPattern(s), t) <==> Contains(Fold(fold, t), Fold(fold, s))
  }

  lemma FoldedSearch(fold: char -> char, s: string, t: string)
    requires FixesMeta(fold) && KeepsOrdinary(fold)
    ensures SearchExactUnder(fold, s, t)
  {
    FoldEscape(fold, s);
    assert Fold(fold, SearchPattern(s)) == SearchPattern(Fold(fold, s));
    SearchIsExact(Fold(fold, s), Fold(fold, t));
  }

  /** A character that folds to a metacharacter slips through unescaped and changes the search. */
  lemma StrayFold(fold: char -> char, c: char)
    requires FixesMeta(fold) && !IsMeta(c) && IsMeta(fold(c))
    ensures exists t :: !SearchExactUnder(fold, [c], t)
  {
    var m := fold(c);
    var p := Fold(fold, SearchPattern([c]));
    assert Escape([c]) == [c];
    assert SearchPattern([c]) == ['%', c, '%'];
    assert p == ['%', m, '%'];
    var t: string := if m == '%' then "" else "%";
    assert Fold(fold, t) == t;
    assert Fold(fold, [c]) == [m];
    var q := p[1..];
    PercentMatchesAll("");
    if m == '%' {
      assert q[1..] == "%";
    } else if m == '_' {
      assert q[1..] == "%" && t[1..] == "";
    } else {
      assert q[2..] == "" && q[1] == '%' && t[1..] == "";
    }
    assert Matches(q, t);
    assert p[0] == '%' && Matches(p, t);
    assert forall i :: OccursAt(t, [m], i) ==> t[i..i + 1][0] == m;
    assert !SearchExactUnder(fold, [c], t);
  }

  /**
   Under a case folding that fixes the metacharacters the search is exact for all strings if and
   only if no other character folds to a metacharacter.
   */
  lemma FoldedSearchExactIff(fold: char -> char)
    requires FixesMeta(fold)
    ensures (forall s, t :: SearchExactUnder(fold, s, t)) <==> KeepsOrdinary(fold)
  {
    if KeepsOrdinary(fold) {
      forall s, t
        ensures SearchExactUnder(fold, s, t)
      {
        FoldedSearch(fold, s, t);
      }
    } else {
      var c :| IsMeta(fold(c)) && !IsMeta(c);
      StrayFold(fold, c);
    }
  }
}
