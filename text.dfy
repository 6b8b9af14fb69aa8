/** The JavaScript string primitives the services rely on: `\s` and `trim()`
    (one fixed whitespace class), ASCII `toLowerCase()` and `includes()`.
    A string is a sequence of characters. */
module Text {

  /** The characters JavaScript's `\s` matches and `String.prototype.trim`
      removes: the WhiteSpace and LineTerminator code points. */
  predicate IsWhitespace(c: char) {
    var n := c as int;
    n == 0x09 || n == 0x0A || n == 0x0B || n == 0x0C || n == 0x0D || n == 0x20
    || n == 0xA0 || n == 0x1680 || (0x2000 <= n <= 0x200A) || n == 0x2028
    || n == 0x2029 || n == 0x202F || n == 0x205F || n == 0x3000 || n == 0xFEFF
  }

  predicate NoEdgeWhitespace(s: string) {
    s != [] ==> !IsWhitespace(s[0]) && !IsWhitespace(s[|s| - 1])
  }

  /** `trimStart()`: drops leading whitespace. */
  function TrimStart(s: string): (r: string)
    ensures |r| <= |s|
    ensures s != [] && IsWhitespace(s[0]) ==> |r| < |s|
    decreases |s|
  {
    if s != [] && IsWhitespace(s[0]) then TrimStart(s[1..]) else s
  }

  /** `trimStart()` leaves the suffix of `s` that does not start with
      whitespace, and everything it drops is whitespace. */
  lemma {:induction false} TrimStartSpec(s: string)
    ensures var r := TrimStart(s);
      && r == s[|s| - |r|..]
      && (r != [] ==> !IsWhitespace(r[0]))
      && (forall i :: 0 <= i < |s| - |r| ==> IsWhitespace(s[i]))
    decreases |s|
  {
    if s != [] && IsWhitespace(s[0]) {
      var r := TrimStart(s);
      TrimStartSpec(s[1..]);
      assert s[1..][|s| - 1 - |r|..] == s[|s| - |r|..];
    }
  }

  /** `trimEnd()`: drops trailing whitespace. */
  function TrimEnd(s: string): (r: string)
    ensures |r| <= |s|
    decreases |s|
  {
    if s != [] && IsWhitespace(s[|s| - 1]) then TrimEnd(s[..|s| - 1]) else s
  }

  /** `trimEnd()` leaves the prefix of `s` that does not end in whitespace,
      and everything it drops is whitespace. */
  lemma {:induction false} TrimEndSpec(s: string)
    ensures var r := TrimEnd(s);
      && r == s[..|r|]
      && (r != [] ==> !IsWhitespace(r[|r| - 1]))
      && (forall i :: |r| <= i < |s| ==> IsWhitespace(s[i]))
    decreases |s|
  {
    if s != [] && IsWhitespace(s[|s| - 1]) {
      var r := TrimEnd(s);
      TrimEndSpec(s[..|s| - 1]);
      assert s[..|s| - 1][..|r|] == s[..|r|];
    }
  }

  /** `r` is the slice of `s` starting at `i`, and everything of `s` outside
      that slice is whitespace. */
  predicate TrimmedAt(s: string, r: string, i: int) {
    && 0 <= i <= |s| - |r|
    && r == s[i..i + |r|]
    && (forall k :: 0 <= k < i ==> IsWhitespace(s[k]))
    && (forall k :: i + |r| <= k < |s| ==> IsWhitespace(s[k]))
  }

  /** `trim()`: `trimStart()` then `trimEnd()`. */
  function Trim(s: string): (r: string)
    ensures |r| <= |s|
  {
    TrimEnd(TrimStart(s))
  }

  /** `trim()` returns the slice of `s` between its leading and its trailing
      whitespace: no whitespace is left at either end, and everything cut off
      is whitespace. */
  lemma TrimSpec(s: string)
    ensures NoEdgeWhitespace(Trim(s))
    ensures exists i :: TrimmedAt(s, Trim(s), i)
  {
    var t := TrimStart(s);
    var r := TrimEnd(t);
    var i := |s| - |t|;
    assert TrimmedAt(s, r, i) by {
      TrimStartSpec(s);
      TrimEndSpec(t);
      assert t == s[i..];
      assert r == t[..|r|];
      assert s[i..][..|r|] == s[i..i + |r|];
    }
    assert NoEdgeWhitespace(r) by {
      TrimStartSpec(s);
      TrimEndSpec(t);
    }
  }

  /** Trimming leaves a string alone exactly when it has no edge whitespace. */
  lemma TrimIdentity(s: string)
    ensures Trim(s) == s <==> NoEdgeWhitespace(s)
  {
    TrimSpec(s);
    if NoEdgeWhitespace(s) {
      assert TrimStart(s) == s;
      assert TrimEnd(s) == s;
    }
  }

  /** Trimming keeps every character that is not whitespace, as often as
      it occurs. */
  lemma TrimKeepsOthers(s: string, c: char)
    requires !IsWhitespace(c)
    ensures multiset(Trim(s))[c] == multiset(s)[c]
  {
    TrimStartKeepsOthers(s, c);
    TrimEndKeepsOthers(TrimStart(s), c);
  }

  lemma {:induction false} TrimStartKeepsOthers(s: string, c: char)
    requires !IsWhitespace(c)
    ensures multiset(TrimStart(s))[c] == multiset(s)[c]
    decreases |s|
  {
    if s != [] && IsWhitespace(s[0]) {
      TrimStartKeepsOthers(s[1..], c);
      FirstCount(s, c);
    }
  }

  lemma {:induction false} TrimEndKeepsOthers(s: string, c: char)
    requires !IsWhitespace(c)
    ensures multiset(TrimEnd(s))[c] == multiset(s)[c]
    decreases |s|
  {
    if s != [] && IsWhitespace(s[|s| - 1]) {
      TrimEndKeepsOthers(s[..|s| - 1], c);
      LastCount(s, c);
    }
  }

  /** Occurrences of `c` in a non-empty string: the first character, then
      the rest. */
  lemma FirstCount(s: string, c: char)
    requires s != []
    ensures multiset(s)[c] == (if s[0] == c then 1 else 0) + multiset(s[1..])[c]
  {
    assert s == [s[0]] + s[1..];
  }

  /** Occurrences of `c` in a non-empty string: all but the last character,
      then the last. */
  lemma LastCount(s: string, c: char)
    requires s != []
    ensures multiset(s)[c] == multiset(s[..|s| - 1])[c] + (if s[|s| - 1] == c then 1 else 0)
  {
    assert s == s[..|s| - 1] + [s[|s| - 1]];
  }

  lemma PrependCount(x: char, t: string, c: char)
    ensures multiset([x] + t)[c] == (if x == c then 1 else 0) + multiset(t)[c]
  {
  }

  /** ASCII part of `toLowerCase()`. */
  function LowerChar(c: char): char {
    if 'A' <= c <= 'Z' then (c as int + 32) as char else c
  }

  function ToLower(s: string): (r: string)
    ensures |r| == |s|
    ensures forall i :: 0 <= i < |r| ==> !('A' <= r[i] <= 'Z')
  {
    seq(|s|, i requires 0 <= i < |s| => LowerChar(s[i]))
  }

  predicate IsPrefix(p: string, s: string) {
    |p| <= |s| && s[..|p|] == p
  }

  /** `sub` occurs in `s` starting at index `i`. */
  predicate OccursAt(s: string, sub: string, i: int) {
    0 <= i <= |s| - |sub| && s[i..i + |sub|] == sub
  }

  /** `s.includes(sub)`: `sub` occurs somewhere in `s`. */
  function Contains(s: string, sub: string): (r: bool)
    ensures r <==> exists i :: OccursAt(s, sub, i)
    decreases |s|
  {
    if |sub| > |s| then false
    else if IsPrefix(sub, s) then
      assert OccursAt(s, sub, 0);
      true
    else
      var tail := s[1..];
      var rest := Contains(tail, sub);
      if rest then
        var i :| OccursAt(tail, sub, i);
        assert s[i + 1..i + 1 + |sub|] == tail[i..i + |sub|];
        assert OccursAt(s, sub, i + 1);
        true
      else
        forall i | OccursAt(s, sub, i)
          ensures false
        {
          assert i != 0;
          assert tail[i - 1..i - 1 + |sub|] == s[i..i + |sub|];
          assert OccursAt(tail, sub, i - 1);
        }
        false
  }

  /** Every string contains itself, so an exact match is a special case of a
      containment test. */
  lemma ContainsSelf(s: string)
    ensures Contains(s, s)
  {
    assert OccursAt(s, s, 0);
  }
}
