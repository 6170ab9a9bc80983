/** The few Python `str` operations the helper relies on, over `seq<char>`. */
module PyStrings {

  /** Python's `s.endswith(suffix)`. */
  predicate EndsWith(s: string, suffix: string) {
    |suffix| <= |s| && s[|s| - |suffix|..] == suffix
  }

  /** Python's `s.startswith(prefix)`. */
  predicate StartsWith(s: string, prefix: string) {
    |prefix| <= |s| && s[..|prefix|] == prefix
  }

  /** `sub` occurs in `s` at position `i`. */
  predicate OccursAt(s: string, sub: string, i: int) {
    0 <= i && i + |sub| <= |s| && s[i..i + |sub|] == sub
  }

  /** Python's `sub in s`: a left-to-right search for `sub` in `s`. */
  function Contains(s: string, sub: string): (r: bool)
    ensures r <==> exists i :: OccursAt(s, sub, i)
    decreases |s|
  {
    if |sub| > |s| then
      false
    else if s[..|sub|] == sub then
      assert OccursAt(s, sub, 0);
      true
    else
      var rest := Contains(s[1..], sub);
      ShiftOccurrence(s, sub);
      rest
  }

  /** When `sub` is not at the front of `s`, it occurs in `s` exactly when
      it occurs in `s[1..]`, one position to the left. */
  lemma ShiftOccurrence(s: string, sub: string)
    requires |sub| <= |s|
    requires s[..|sub|] != sub
    ensures (exists i :: OccursAt(s, sub, i)) <==> (exists j :: OccursAt(s[1..], sub, j))
  {
    if i :| OccursAt(s, sub, i) {
      assert i != 0;
      assert s[1..][i - 1..i - 1 + |sub|] == s[i..i + |sub|];
      assert OccursAt(s[1..], sub, i - 1);
    }
    if j :| OccursAt(s[1..], sub, j) {
      assert s[j + 1..j + 1 + |sub|] == s[1..][j..j + |sub|];
      assert OccursAt(s, sub, j + 1);
    }
  }

  /** An occurrence in a prefix of `t` is an occurrence in `t`. */
  lemma ContainsExtends(s: string, t: string, sub: string)
    requires Contains(s, sub)
    requires StartsWith(t, s)
    ensures Contains(t, sub)
  {
    var i :| OccursAt(s, sub, i);
    assert t[i..i + |sub|] == s[i..i + |sub|];
    assert OccursAt(t, sub, i);
  }

  /** An occurrence in a suffix of `t` is an occurrence in `t`. */
  lemma ContainsInSuffix(s: string, t: string, sub: string)
    requires Contains(s, sub)
    requires EndsWith(t, s)
    ensures Contains(t, sub)
  {
    var i :| OccursAt(s, sub, i);
    var k := |t| - |s|;
    assert t[k + i..k + i + |sub|] == s[i..i + |sub|];
    assert OccursAt(t, sub, k + i);
  }

  /** Python's `posixpath.join(a, b)` for two components: an absolute `b`
      replaces `a`; otherwise a separator is inserted unless `a` is empty
      or already ends in one. */
  function JoinPath(a: string, b: string): (r: string)
    ensures EndsWith(r, b)
    ensures !StartsWith(b, "/") ==> StartsWith(r, a)
    ensures !StartsWith(b, "/") ==> r == a + b || r == a + "/" + b
    ensures StartsWith(b, "/") ==> r == b
    ensures !StartsWith(b, "/") && a != "" && !EndsWith(a, "/") ==> r == a + "/" + b
    ensures !StartsWith(b, "/") && (a == "" || EndsWith(a, "/")) ==> r == a + b
  {
    if StartsWith(b, "/") then b
    else if a == "" || EndsWith(a, "/") then a + b
    else a + "/" + b
  }
}
