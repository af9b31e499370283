/**
 The key strings of the item cache and the pattern that clears them.
 Owners are UUIDs, so str(owner_id) holds hexadecimal digits and dashes only.
 */
module CacheKeys {
  import opened Common
  import opened Digits

  /** str(n) for the numbers the router admits. */
  function Dec(n: nat): string {
    if n < 10 then [DigitChar(n)] else Dec(n / 10) + [DigitChar(n % 10)]
  }

  /** f"items:{owner_id}:{offset}:{limit}" */
  function ItemKey(owner: string, offset: nat, limit: nat): string {
    ItemPrefix(owner) + (Dec(offset) + (":" + Dec(limit)))
  }

  function ItemPrefix(owner: string): string {
    "items:" + (owner + ":")
  }

  /** f"items:{owner_id}:*" */
  function ItemPattern(owner: string): string {
    ItemPrefix(owner) + "*"
  }

  /** f"lock:{key}" */
  function LockKey(key: string): string {
    "lock:" + key
  }

  /** str(n) reads back as n and has no leading zero. */
  lemma {:induction false} DecReads(n: nat)
    ensures Read(10, Dec(n)) == Some(n)
    ensures n > 0 ==> Dec(n)[0] != '0'
  {
    if n >= 10 {
      DecReads(n / 10);
      ReadAppend(10, Dec(n / 10), n / 10, n % 10);
    } else {
      assert Read(10, "") == Some(0);
      ReadAppend(10, "", 0, n);
      assert "" + [DigitChar(n)] == [DigitChar(n)];
    }
  }

  /** The texts of the keys, letter by letter. */
  lemma KeyTexts(owner: string, key: string)
    ensures ItemKey("ab", 0, 20) == "items:ab:0:20" && ItemPattern("ab") == "items:ab:*" && LockKey("k") == "lock:k"
    ensures forall offset: nat, limit: nat ::
              ItemKey(owner, offset, limit) == "items:" + owner + ":" + Dec(offset) + ":" + Dec(limit)
    ensures ItemPattern(owner) == "items:" + owner + ":*" && LockKey(key) == "lock:" + key
  {
    assert Dec(20) == "20";
    forall offset: nat, limit: nat
      ensures ItemKey(owner, offset, limit) == "items:" + owner + ":" + Dec(offset) + ":" + Dec(limit)
    {
    }
  }

  predicate ValidOwner(owner: string) {
    forall c | c in owner :: '0' <= c <= '9' || 'a' <= c <= 'f' || c == '-'
  }

  /** Redis pattern matching: '*' any run, '?' any one character, '\' quotes; no pattern here has a bracket. */
  predicate Glob(p: string, s: string)
    decreases |p|, |s|
  {
    if p == "" then s == ""
    else if p[0] == '*' then Glob(p[1..], s) || (s != "" && Glob(p, s[1..]))
    else if p[0] == '?' then s != "" && Glob(p[1..], s[1..])
    else if p[0] == '\\' && |p| > 1 then s != "" && s[0] == p[1] && Glob(p[2..], s[1..])
    else s != "" && s[0] == p[0] && Glob(p[1..], s[1..])
  }

  predicate Plain(s: string) {
    forall k | 0 <= k < |s| :: s[k] != '*' && s[k] != '?' && s[k] != '\\'
  }

  lemma {:induction false} StarMatchesAll(s: string)
    ensures Glob("*", s)
  {
    if s != "" {
      StarMatchesAll(s[1..]);
    }
  }

  /** Plain text followed by a star matches what begins with the text. */
  lemma {:induction false} GlobPrefix(text: string, s: string)
    requires Plain(text)
    ensures Glob(text + "*", s) <==> text <= s
  {
    if text == "" {
      assert text + "*" == "*";
      StarMatchesAll(s);
    } else {
      assert (text + "*")[1..] == text[1..] + "*";
      if s != "" {
        GlobPrefix(text[1..], s[1..]);
        assert text == [text[0]] + text[1..] && s == [s[0]] + s[1..];
      }
    }
  }

  predicate NoColon(s: string) {
    ':' !in s
  }

  /** The first colon splits a string in one way only. */
  lemma {:induction false} FirstColon(a: string, x: string, b: string, y: string)
    requires NoColon(a) && NoColon(b)
    requires a + (":" + x) == b + (":" + y)
    ensures a == b && x == y
  {
    var s := a + (":" + x);
    assert s[|a|] == ':' && s[|b|] == ':';
    assert forall k | 0 <= k < |a| :: s[k] == a[k] && a[k] in a;
    assert forall k | 0 <= k < |b| :: s[k] == b[k] && b[k] in b;
    assert |a| == |b|;
    assert a == s[..|a|] && b == s[..|b|];
    assert x == s[|a| + 1..] && y == s[|b| + 1..];
  }

  lemma {:induction false} DecNoColon(n: nat)
    ensures NoColon(Dec(n))
  {
    if n >= 10 {
      DecNoColon(n / 10);
    }
  }

  lemma {:induction false} DecInjective(m: nat, n: nat)
    requires Dec(m) == Dec(n)
    ensures m == n
  {
    var s := Dec(m);
    DecNonEmpty(m / 10);
    DecNonEmpty(n / 10);
    assert s[|s| - 1] == DigitChar(m % 10) == DigitChar(n % 10);
    if m >= 10 && n >= 10 {
      assert s[..|s| - 1] == Dec(m / 10) == Dec(n / 10);
      DecInjective(m / 10, n / 10);
    }
  }

  lemma DecNonEmpty(n: nat)
    ensures |Dec(n)| >= 1
  {
  }

  /** Different lists have different keys. */
  lemma ItemKeyInjective(owner: string, offset: nat, limit: nat, owner': string, offset': nat, limit': nat)
    requires ValidOwner(owner) && ValidOwner(owner')
    requires ItemKey(owner, offset, limit) == ItemKey(owner', offset', limit')
    ensures owner == owner' && offset == offset' && limit == limit'
  {
    var rest, rest' := Dec(offset) + (":" + Dec(limit)), Dec(offset') + (":" + Dec(limit'));
    assert ItemKey(owner, offset, limit) == "items:" + (owner + (":" + rest));
    assert ItemKey(owner', offset', limit') == "items:" + (owner' + (":" + rest'));
    assert (owner + (":" + rest)) == ("items:" + (owner + (":" + rest)))[6..];
    assert (owner' + (":" + rest')) == ("items:" + (owner' + (":" + rest')))[6..];
    FirstColon(owner, rest, owner', rest');
    DecNoColon(offset);
    DecNoColon(offset');
    FirstColon(Dec(offset), Dec(limit), Dec(offset'), Dec(limit'));
    DecInjective(offset, offset');
    DecInjective(limit, limit');
  }

  lemma PrefixIsPlain(owner: string)
    requires ValidOwner(owner)
    ensures Plain(ItemPrefix(owner))
  {
    var p := ItemPrefix(owner);
    forall k | 0 <= k < |p|
      ensures p[k] != '*' && p[k] != '?' && p[k] != '\\'
    {
      if 6 <= k < 6 + |owner| {
        assert p[k] == owner[k - 6] && owner[k - 6] in owner;
      }
    }
  }

  /** The pattern of one owner matches exactly that owner's list keys. */
  lemma PatternMatchesOwnKeys(owner: string, owner': string, offset: nat, limit: nat)
    requires ValidOwner(owner) && ValidOwner(owner')
    ensures Glob(ItemPattern(owner), ItemKey(owner', offset, limit)) <==> owner == owner'
  {
    var prefix, key := ItemPrefix(owner), ItemKey(owner', offset, limit);
    PrefixIsPlain(owner);
    GlobPrefix(prefix, key);
    var rest := Dec(offset) + (":" + Dec(limit));
    if prefix <= key {
      var tail := key[|prefix|..];
      assert key == prefix + tail;
      assert key == "items:" + (owner + (":" + tail));
      assert key == "items:" + (owner' + (":" + rest));
      assert key[6..] == owner + (":" + tail) && key[6..] == owner' + (":" + rest);
      FirstColon(owner, tail, owner', rest);
    }
  }

  /** No owner's pattern reaches a lock, and no list key is a lock key. */
  lemma LocksAreApart(owner: string, key: string, owner': string, offset: nat, limit: nat)
    requires ValidOwner(owner)
    ensures !Glob(ItemPattern(owner), LockKey(key))
    ensures ItemKey(owner', offset, limit) != LockKey(key)
  {
    PrefixIsPlain(owner);
    GlobPrefix(ItemPrefix(owner), LockKey(key));
    assert ItemPrefix(owner)[0] == 'i' && LockKey(key)[0] == 'l';
    assert ItemKey(owner', offset, limit)[0] == 'i';
  }
}
