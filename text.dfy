/**
 * String helpers shared by the adapter, the request router and the config code:
 * JavaScript whitespace, `sanitizeText` (collapse whitespace runs, then trim),
 * ASCII `toLowerCase`, `includes`, and `split` on a single character.
 */
module Text {

  /** The code points JavaScript's `\s` matches and `trim` strips (WhiteSpace and LineTerminator). */
  predicate IsSpace(c: char) {
    var n := c as int;
    (9 <= n <= 13) || n == 0x20 || n == 0xA0 || n == 0x1680 || (0x2000 <= n <= 0x200A)
    || n == 0x2028 || n == 0x2029 || n == 0x202F || n == 0x205F || n == 0x3000 || n == 0xFEFF
  }

  predicate IsDigit(c: char) { '0' <= c <= '9' }

  predicate IsHexDigit(c: char) { IsDigit(c) || 'a' <= c <= 'f' }

  /** Drops the leading whitespace of `s` (also `trimStart`). */
  function SkipSpaces(s: string): (r: string)
    ensures |r| <= |s|
  {
    if s != [] && IsSpace(s[0]) then SkipSpaces(s[1..]) else s
  }

  /** `SkipSpaces` removes exactly the leading run of whitespace. */
  lemma {:induction false} SkipSpacesSpec(s: string)
    ensures var r := SkipSpaces(s);
            && r == s[|s| - |r|..]
            && (r == [] || !IsSpace(r[0]))
            && (forall i :: 0 <= i < |s| - |r| ==> IsSpace(s[i]))
    decreases |s|
  {
    if s != [] && IsSpace(s[0]) {
      SkipSpacesSpec(s[1..]);
      var r := SkipSpaces(s);
      assert s[1..][|s| - 1 - |r|..] == s[|s| - |r|..];
      forall i | 0 < i < |s| - |r| ensures IsSpace(s[i]) {
        assert s[i] == s[1..][i - 1];
      }
    }
  }

  /** `replace(/\s+/g, ' ')`: every maximal run of whitespace becomes a single space. */
  function Collapse(s: string): string
    decreases |s|
  {
    if s == [] then []
    else if IsSpace(s[0]) then [' '] + Collapse(SkipSpaces(s[1..]))
    else [s[0]] + Collapse(s[1..])
  }

  /** Drops the trailing whitespace of `s` (also `trimEnd`). */
  function TrimEnd(s: string): (r: string)
    ensures |r| <= |s|
  {
    if s != [] && IsSpace(s[|s| - 1]) then TrimEnd(s[..|s| - 1]) else s
  }

  /** `TrimEnd` removes exactly the trailing run of whitespace. */
  lemma {:induction false} TrimEndSpec(s: string)
    ensures var r := TrimEnd(s);
            && r == s[..|r|]
            && (r == [] || !IsSpace(r[|r| - 1]))
            && (forall i :: |r| <= i < |s| ==> IsSpace(s[i]))
    decreases |s|
  {
    if s != [] && IsSpace(s[|s| - 1]) {
      TrimEndSpec(s[..|s| - 1]);
      var r := TrimEnd(s);
      assert s[..|s| - 1][..|r|] == s[..|r|];
      forall i | |r| <= i < |s| - 1 ensures IsSpace(s[i]) {
        assert s[i] == s[..|s| - 1][i];
      }
    }
  }

  function Trim(s: string): string {
    TrimEnd(SkipSpaces(s))
  }

  /** `sanitizeText` of a string value: `value.replace(/\s+/g, ' ').trim()`. */
  function Sanitize(s: string): string {
    Trim(Collapse(s))
  }

  /** `a || b` on strings, where "" stands for an absent or empty value. */
  function OrText(a: string, b: string): string {
    if a != "" then a else b
  }

  /** Positions `i` and `i + 1` of `s` both hold whitespace. */
  predicate SpaceRunAt(s: string, i: int) {
    0 <= i && i + 1 < |s| && IsSpace(s[i]) && IsSpace(s[i + 1])
  }

  /** Every whitespace character is a plain space and no two whitespace characters are adjacent. */
  predicate Collapsed(s: string) {
    && (forall i :: 0 <= i < |s| && IsSpace(s[i]) ==> s[i] == ' ')
    && (forall i | 0 <= i < |s| :: !SpaceRunAt(s, i))
  }

  /** The normal form `sanitizeText` produces: collapsed, with no whitespace at either end. */
  predicate Clean(s: string) {
    Collapsed(s) && (s == [] || (!IsSpace(s[0]) && !IsSpace(s[|s| - 1])))
  }

  lemma {:induction false} CollapseStart(s: string)
    requires s != [] && !IsSpace(s[0])
    ensures Collapse(s) != [] && Collapse(s)[0] == s[0]
  {
  }

  lemma {:induction false} CollapseIsCollapsed(s: string)
    ensures Collapsed(Collapse(s))
    decreases |s|
  {
    if s == [] {
    } else if IsSpace(s[0]) {
      var t := SkipSpaces(s[1..]);
      SkipSpacesSpec(s[1..]);
      CollapseIsCollapsed(t);
      if t != [] {
        CollapseStart(t);
      }
      var c := Collapse(t);
      var x := [' '] + c;
      assert Collapse(s) == x;
      forall i | 0 <= i < |x| ensures !SpaceRunAt(x, i) {
        if i > 0 {
          assert !SpaceRunAt(c, i - 1);
        }
      }
    } else {
      CollapseIsCollapsed(s[1..]);
      var c := Collapse(s[1..]);
      var x := [s[0]] + c;
      assert Collapse(s) == x;
      forall i | 0 <= i < |x| ensures !SpaceRunAt(x, i) {
        if i > 0 {
          assert !SpaceRunAt(c, i - 1);
        }
      }
    }
  }

  lemma CollapsedSlice(s: string, a: nat, b: nat)
    requires Collapsed(s) && a <= b <= |s|
    ensures Collapsed(s[a..b])
  {
    var t := s[a..b];
    forall i | 0 <= i < |t| ensures !SpaceRunAt(t, i) {
      assert !SpaceRunAt(s, a + i);
    }
  }

  lemma TrimCollapsedIsClean(c: string)
    requires Collapsed(c)
    ensures Clean(Trim(c))
  {
    var t := SkipSpaces(c);
    SkipSpacesSpec(c);
    CollapsedSlice(c, |c| - |t|, |c|);
    assert c[|c| - |t|..|c|] == t;
    var r := TrimEnd(t);
    TrimEndSpec(t);
    CollapsedSlice(t, 0, |r|);
    assert r == [] || r[0] == t[0];
  }

  /** What `sanitizeText` returns is in normal form. */
  lemma SanitizeIsClean(s: string)
    ensures Clean(Sanitize(s))
  {
    CollapseIsCollapsed(s);
    TrimCollapsedIsClean(Collapse(s));
  }

  lemma {:induction false} CollapseFixesCollapsed(s: string)
    requires Collapsed(s)
    requires s == [] || !IsSpace(s[0]) || s[0] == ' '
    ensures Collapse(s) == s
    decreases |s|
  {
    if s == [] {
    } else if IsSpace(s[0]) {
      CollapsedSlice(s, 1, |s|);
      assert s[1..|s|] == s[1..];
      assert !SpaceRunAt(s, 0);
      assert SkipSpaces(s[1..]) == s[1..];
      CollapseFixesCollapsed(s[1..]);
      assert s == [' '] + s[1..];
    } else {
      CollapsedSlice(s, 1, |s|);
      assert s[1..|s|] == s[1..];
      assert s[1..] == [] || !IsSpace(s[1]) || s[1] == ' ';
      CollapseFixesCollapsed(s[1..]);
      assert s == [s[0]] + s[1..];
    }
  }

  /** A string already in normal form is left alone by `sanitizeText`. */
  lemma {:induction false} SanitizeFixesClean(s: string)
    requires Clean(s)
    ensures Sanitize(s) == s
  {
    CollapseFixesCollapsed(s);
  }

  /** `sanitizeText` is idempotent. */
  lemma SanitizeIdempotent(s: string)
    ensures Sanitize(Sanitize(s)) == Sanitize(s)
  {
    SanitizeIsClean(s);
    SanitizeFixesClean(Sanitize(s));
  }

  lemma {:induction false} CollapseEmptyIff(s: string)
    ensures (forall i :: 0 <= i < |Collapse(s)| ==> IsSpace(Collapse(s)[i]))
            <==> (forall i :: 0 <= i < |s| ==> IsSpace(s[i]))
    decreases |s|
  {
    if s == [] {
    } else if IsSpace(s[0]) {
      var t := SkipSpaces(s[1..]);
      SkipSpacesSpec(s[1..]);
      CollapseEmptyIff(t);
      if t != [] {
        CollapseStart(t);
        assert Collapse(s)[1] == t[0];
        assert s[|s| - |t|] == t[0];
      } else {
        assert Collapse(s) == [' '];
        forall i | 0 <= i < |s| ensures IsSpace(s[i]) {
          if i > 0 { assert s[i] == s[1..][i - 1]; }
        }
      }
    } else {
      assert Collapse(s)[0] == s[0];
    }
  }

  lemma TrimEmptyIff(t: string)
    ensures Trim(t) == [] <==> forall i :: 0 <= i < |t| ==> IsSpace(t[i])
  {
    var u := SkipSpaces(t);
    SkipSpacesSpec(t);
    TrimEndSpec(u);
    if u != [] {
      assert t[|t| - |u|] == u[0];
    }
  }

  /** `sanitizeText` yields the empty string exactly when its input is all whitespace. */
  lemma SanitizeEmptyIff(s: string)
    ensures Sanitize(s) == [] <==> forall i :: 0 <= i < |s| ==> IsSpace(s[i])
  {
    var c := Collapse(s);
    CollapseEmptyIff(s);
    TrimEmptyIff(c);
    assert Sanitize(s) == Trim(c);
  }

  /** JavaScript `toLowerCase`, restricted to ASCII letters. */
  function LowerChar(c: char): char {
    if 'A' <= c <= 'Z' then (c as int + 32) as char else c
  }

  function Lower(s: string): (r: string)
    ensures |r| == |s|
    ensures forall i :: 0 <= i < |s| ==> r[i] == LowerChar(s[i])
  {
    seq(|s|, i requires 0 <= i < |s| => LowerChar(s[i]))
  }

  /** Lower-casing works character by character, so it distributes over concatenation. */
  lemma LowerConcat(a: string, b: string)
    ensures Lower(a + b) == Lower(a) + Lower(b)
  {
    assert forall i :: 0 <= i < |a + b| ==> Lower(a + b)[i] == (Lower(a) + Lower(b))[i];
  }

  /** Lower-casing an already lower-cased text changes nothing. */
  lemma LowerIdempotent(s: string)
    ensures Lower(Lower(s)) == Lower(s)
  {
    forall i | 0 <= i < |s| ensures Lower(Lower(s))[i] == Lower(s)[i] {
      assert !('A' <= LowerChar(s[i]) <= 'Z');
    }
  }

  predicate IsPrefix(p: string, s: string) {
    |p| <= |s| && s[..|p|] == p
  }

  /** `sub` occurs in `s` starting at index `i`. */
  predicate OccursAt(s: string, sub: string, i: int) {
    0 <= i && i + |sub| <= |s| && s[i..i + |sub|] == sub
  }

  /** `s.includes(sub)`. */
  predicate Contains(s: string, sub: string) {
    exists i | 0 <= i <= |s| - |sub| :: OccursAt(s, sub, i)
  }

  lemma ContainsSelf(s: string)
    ensures Contains(s, s)
  {
    assert OccursAt(s, s, 0);
  }

  /** `s.split(c)` for a one-character separator. */
  function Split(s: string, c: char): (r: seq<string>)
    ensures |r| >= 1
  {
    if s == [] then [""]
    else if s[0] == c then [""] + Split(s[1..], c)
    else
      var t := Split(s[1..], c);
      [[s[0]] + t[0]] + t[1..]
  }

  /**
   * The fields of `split(c)` hold no `c`; the first is the text before the first `c`; there is
   * one field exactly when `c` does not occur.
   */
  lemma {:induction false} SplitSpec(s: string, c: char)
    ensures forall k :: 0 <= k < |Split(s, c)| ==> c !in Split(s, c)[k]
    ensures IsPrefix(Split(s, c)[0], s)
    ensures |Split(s, c)[0]| < |s| ==> s[|Split(s, c)[0]|] == c
    ensures |Split(s, c)| == 1 <==> c !in s
    decreases |s|
  {
    if s != [] {
      SplitSpec(s[1..], c);
      var t := Split(s[1..], c);
      if s[0] == c {
        assert Split(s, c) == [""] + t;
      } else {
        var head := [s[0]] + t[0];
        var r := [head] + t[1..];
        assert Split(s, c) == r;
        forall k | 0 <= k < |r| ensures c !in r[k] {
          if k > 0 {
            assert r[k] == t[k];
          }
        }
        assert s[..|head|] == [s[0]] + s[1..][..|t[0]|];
        assert c !in s <==> c !in s[1..] by {
          assert s == [s[0]] + s[1..];
        }
      }
    }
  }

  /** `parts.join(c)`. */
  function Join(parts: seq<string>, c: char): string
    requires |parts| >= 1
  {
    if |parts| == 1 then parts[0] else parts[0] + [c] + Join(parts[1..], c)
  }

  /** Splitting and joining on the same character are inverse. */
  lemma {:induction false} JoinSplit(s: string, c: char)
    ensures Join(Split(s, c), c) == s
    decreases |s|
  {
    if s == [] {
    } else if s[0] == c {
      JoinSplit(s[1..], c);
      var t := Split(s[1..], c);
      assert Split(s, c) == [""] + t;
      assert ([""] + t)[1..] == t;
    } else {
      JoinSplit(s[1..], c);
      var t := Split(s[1..], c);
      var r := [[s[0]] + t[0]] + t[1..];
      assert Split(s, c) == r;
      if |t| == 1 {
      } else {
        assert r[1..] == t[1..];
      }
    }
  }

  /** When the first occurrence of `c` follows `a`, the first field of `split(c)` is `a`. */
  lemma {:induction false} SplitHeadBefore(a: string, c: char, b: string)
    requires c !in a
    ensures Split(a + [c] + b, c)[0] == a
  {
    var s := a + [c] + b;
    if a != [] {
      assert s[1..] == a[1..] + [c] + b;
      SplitHeadBefore(a[1..], c, b);
      assert a == [a[0]] + a[1..];
    }
  }

  /** Splitting after a field free of `c`: that field, then the fields of the rest. */
  lemma {:induction false} SplitCons(a: string, c: char, b: string)
    requires c !in a
    ensures Split(a + [c] + b, c) == [a] + Split(b, c)
    decreases |a|
  {
    var s := a + [c] + b;
    if a == [] {
      assert s[1..] == b;
    } else {
      assert s[1..] == a[1..] + [c] + b;
      SplitCons(a[1..], c, b);
      assert a == [a[0]] + a[1..];
    }
  }

  lemma SplitNoSeparator(s: string, c: char)
    requires c !in s
    ensures Split(s, c) == [s]
  {
    if s != [] {
      SplitNoSeparator(s[1..], c);
      assert s == [s[0]] + s[1..];
    }
  }
}
