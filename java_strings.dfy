/** The two `java.lang.String` operations the controllers rely on. */
module JavaStrings {
  import opened Wrappers
  import opened Sequences

  /** A character `String.trim` removes: any code point up to U+0020. */
  predicate IsTrimmed(c: char) {
    c <= ' '
  }

  /** Drops the trimmable prefix of `s`. */
  function TrimLeading(s: string): (r: string)
    ensures |r| <= |s| && r == s[|s| - |r|..]
    ensures r != [] ==> !IsTrimmed(r[0])
    ensures forall i :: 0 <= i < |s| - |r| ==> IsTrimmed(s[i])
  {
    if s != [] && IsTrimmed(s[0]) then TrimLeading(s[1..]) else s
  }

  /** Drops the trimmable suffix of `s`. */
  function TrimTrailing(s: string): (r: string)
    ensures |r| <= |s| && r == s[..|r|]
    ensures r != [] ==> !IsTrimmed(r[|r| - 1])
    ensures forall i :: |r| <= i < |s| ==> IsTrimmed(s[i])
  {
    if s != [] && IsTrimmed(s[|s| - 1]) then TrimTrailing(s[..|s| - 1]) else s
  }

  /**
   * `String.trim`: the slice of `s` left after cutting away the trimmable characters at both
   * ends; it neither starts nor ends with a trimmable character.
   */
  function Trim(s: string): (r: string)
    ensures exists i, j :: 0 <= i <= j <= |s| && r == s[i..j] && Trimmable(s, i, j)
    ensures r != [] ==> !IsTrimmed(r[0]) && !IsTrimmed(r[|r| - 1])
  {
    var l := TrimLeading(s);
    var r := TrimTrailing(l);
    assert r == s[|s| - |l|..|s| - |l| + |r|];
    TrimmedAround(s, l, r);
    r
  }

  /** Everything of `s` outside `s[i..j]` is trimmable. */
  ghost predicate Trimmable(s: string, i: int, j: int) {
    forall k :: 0 <= k < |s| && !(i <= k < j) ==> IsTrimmed(s[k])
  }

  /** What `TrimLeading` and then `TrimTrailing` cut away is trimmable. */
  lemma TrimmedAround(s: string, l: string, r: string)
    requires |l| <= |s| && l == s[|s| - |l|..] && forall k :: 0 <= k < |s| - |l| ==> IsTrimmed(s[k])
    requires |r| <= |l| && forall k :: |r| <= k < |l| ==> IsTrimmed(l[k])
    ensures Trimmable(s, |s| - |l|, |s| - |l| + |r|)
  {
    var i := |s| - |l|;
    forall k | i + |r| <= k < |s| ensures IsTrimmed(s[k]) {
      assert s[k] == l[k - i];
    }
  }

  /** `s.trim().isEmpty()` holds exactly when every character of `s` is trimmable. */
  lemma TrimEmptyIff(s: string)
    ensures Trim(s) == [] <==> forall i :: 0 <= i < |s| ==> IsTrimmed(s[i])
  {
    var l := TrimLeading(s);
    if Trim(s) == [] {
      // every character of l is trimmable, so l, whose first one is not, must be empty
      assert l == [];
    } else if forall i :: 0 <= i < |s| ==> IsTrimmed(s[i]) {
      if l != [] {
        assert l[0] == s[|s| - |l|];
      }
    }
  }

  /** The null-or-blank test both controllers write as `x == null || x.trim().isEmpty()`. */
  predicate IsBlank(s: Option<string>) {
    s.None? || Trim(s.value) == []
  }

  /** A blank value is null or holds only trimmable characters. */
  lemma IsBlankIff(s: Option<string>)
    ensures IsBlank(s) <==> s.None? || forall i :: 0 <= i < |s.value| ==> IsTrimmed(s.value[i])
  {
    if s.Some? {
      TrimEmptyIff(s.value);
    }
  }

  /** `s.replace(c, "")` for a one-character target: every occurrence of `c` removed, the rest in order. */
  function Without(s: string, c: char): (r: string)
    ensures c !in r
    ensures c !in s ==> r == s
    ensures |r| <= |s|
    ensures forall x :: x in r ==> x in s
    ensures |r| == |s| - multiset(s)[c]
    ensures multiset(r) == multiset(s)[c := 0]
    ensures IsSubsequence(r, s)
  {
    if s == [] then []
    else
      assert s == [s[0]] + s[1..];
      if s[0] == c then Without(s[1..], c)
      else [s[0]] + Without(s[1..], c)
  }
}
