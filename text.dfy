/**
 * Character-level helpers shared by the file rules and the store's orderings:
 * ASCII lower-casing (ToLowerInvariant), file-name extensions (Path.GetExtension)
 * and ordinal string comparison (how the listings order names and times).
 */
module Text {

  predicate IsUpper(c: char) { 'A' <= c <= 'Z' }

  function LowerChar(c: char): (r: char)
    ensures !IsUpper(r)
    ensures IsUpper(c) ==> 'a' <= r <= 'z' && r as int - 'a' as int == c as int - 'A' as int
    ensures !IsUpper(c) ==> r == c
  {
    if IsUpper(c) then (c as int + 32) as char else c
  }

  /** ToLowerInvariant over ASCII: upper-case letters are lowered, everything else is kept. */
  function ToLower(s: string): (r: string)
    ensures |r| == |s|
    ensures forall i :: 0 <= i < |r| ==> !IsUpper(r[i])
    ensures forall i :: 0 <= i < |s| && IsUpper(s[i]) ==>
      'a' <= r[i] <= 'z' && r[i] as int - 'a' as int == s[i] as int - 'A' as int
    ensures forall i :: 0 <= i < |s| && !IsUpper(s[i]) ==> r[i] == s[i]
  {
    seq(|s|, i requires 0 <= i < |s| => LowerChar(s[i]))
  }

  lemma ToLowerIdempotent(s: string)
    ensures ToLower(ToLower(s)) == ToLower(s)
  {
  }

  predicate IsDirectorySeparator(c: char) { c == '/' || c == '\\' }

  /**
   * Path.GetExtension: the suffix that starts at the last '.', provided that
   * dot is not the final character and no directory separator follows it;
   * otherwise the empty string.
   */
  function GetExtension(s: string): (r: string)
    ensures r == [] || IsExtensionOf(r, s)
    ensures forall k :: 0 <= k < |s| - 1 && s[k] == '.' && NoDotOrSeparatorAfter(s, k) ==> r == s[k..]
  {
    ExtensionBefore(s, |s|)
  }

  /** `r` is a well-formed extension ending `s`: a dot, at least one more character, no dot or separator after it. */
  ghost predicate IsExtensionOf(r: string, s: string)
  {
    && 2 <= |r| <= |s|
    && r[0] == '.'
    && r == s[|s| - |r|..]
    && forall i :: 1 <= i < |r| ==> r[i] != '.' && !IsDirectorySeparator(r[i])
  }

  /** No '.' and no directory separator follows position `k` of `s`. */
  predicate NoDotOrSeparatorAfter(s: string, k: nat)
  {
    forall j :: k < j < |s| ==> s[j] != '.' && !IsDirectorySeparator(s[j])
  }

  /** Scans s[..i] from its end, as Path.GetExtension's backward loop does. */
  function ExtensionBefore(s: string, i: nat): (r: string)
    requires i <= |s|
    requires forall j :: i <= j < |s| ==> s[j] != '.' && !IsDirectorySeparator(s[j])
    ensures r == [] || (IsExtensionOf(r, s) && |s| - |r| < i)
    ensures forall k :: 0 <= k < i && k < |s| - 1 && s[k] == '.' && NoDotOrSeparatorAfter(s, k) ==> r == s[k..]
    decreases i
  {
    if i == 0 then []
    else if s[i - 1] == '.' then (if i == |s| then [] else s[i - 1..])
    else if IsDirectorySeparator(s[i - 1]) then []
    else ExtensionBefore(s, i - 1)
  }

  /** Lower-casing a name and then taking its extension is the same as lower-casing its extension. */
  lemma {:induction false} ExtensionOfLower(s: string)
    ensures GetExtension(ToLower(s)) == ToLower(GetExtension(s))
  {
    ExtensionBeforeLower(s, |s|);
  }

  lemma {:induction false} ExtensionBeforeLower(s: string, i: nat)
    requires i <= |s|
    requires forall j :: i <= j < |s| ==> s[j] != '.' && !IsDirectorySeparator(s[j])
    ensures ExtensionBefore(ToLower(s), i) == ToLower(ExtensionBefore(s, i))
    decreases i
  {
    var t := ToLower(s);
    if i == 0 {
    } else if s[i - 1] == '.' {
      assert t[i - 1] == '.';
      if i < |s| {
        assert ToLower(s[i - 1..]) == t[i - 1..];
      }
    } else if IsDirectorySeparator(s[i - 1]) {
      assert t[i - 1] == s[i - 1];
    } else {
      assert t[i - 1] != '.' && !IsDirectorySeparator(t[i - 1]);
      ExtensionBeforeLower(s, i - 1);
    }
  }

  /** Ordinal (character-code) order on strings: a proper prefix comes first. */
  predicate LessEq(a: string, b: string)
    decreases |a|
  {
    if a == [] then true
    else if b == [] then false
    else if a[0] != b[0] then a[0] < b[0]
    else LessEq(a[1..], b[1..])
  }

  lemma {:induction false} LessEqTotal(a: string, b: string)
    ensures LessEq(a, b) || LessEq(b, a)
    decreases |a|
  {
    if a != [] && b != [] && a[0] == b[0] {
      LessEqTotal(a[1..], b[1..]);
    }
  }

  lemma {:induction false} LessEqTransitive(a: string, b: string, c: string)
    requires LessEq(a, b) && LessEq(b, c)
    ensures LessEq(a, c)
    decreases |a|
  {
    if a != [] && b != [] && c != [] && a[0] == b[0] && b[0] == c[0] {
      LessEqTransitive(a[1..], b[1..], c[1..]);
    }
  }

  lemma {:induction false} LessEqAntisymmetric(a: string, b: string)
    requires LessEq(a, b) && LessEq(b, a)
    ensures a == b
    decreases |a|
  {
    if a != [] && b != [] {
      LessEqAntisymmetric(a[1..], b[1..]);
      assert a == [a[0]] + a[1..];
      assert b == [b[0]] + b[1..];
    }
  }
}
