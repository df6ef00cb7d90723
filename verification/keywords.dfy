/** Python's substring test `sub in s`, which decides every step of the
    pipeline from the `preprocess` option and the `dataroot` path. */
module Keywords {

  predicate StartsWith(s: string, prefix: string) {
    |prefix| <= |s| && s[..|prefix|] == prefix
  }

  /** `sub in s` for two strings: some suffix of `s` starts with `sub`. The
      empty string is in every string. */
  predicate Contains(s: string, sub: string): (b: bool)
    ensures |sub| == 0 ==> b
    ensures b ==> |sub| <= |s|
    decreases |s|
  {
    StartsWith(s, sub) || (|s| > 0 && Contains(s[1..], sub))
  }

  /** The reference definition: `sub` occurs at some position of `s`. */
  ghost predicate OccursAt(s: string, sub: string, i: int) {
    0 <= i && i + |sub| <= |s| && s[i..i + |sub|] == sub
  }

  /** `Contains` holds exactly when `sub` occurs somewhere in `s`. */
  lemma {:induction false} ContainsIffOccurs(s: string, sub: string)
    ensures Contains(s, sub) <==> exists i :: OccursAt(s, sub, i)
    decreases |s|
  {
    if StartsWith(s, sub) {
      assert OccursAt(s, sub, 0);
    } else if |s| > 0 {
      ContainsIffOccurs(s[1..], sub);
      if Contains(s[1..], sub) {
        var i :| OccursAt(s[1..], sub, i);
        assert s[1..][i..i + |sub|] == s[i + 1..i + 1 + |sub|];
        assert OccursAt(s, sub, i + 1);
      } else {
        forall i | OccursAt(s, sub, i)
          ensures false
        {
          assert i != 0;
          assert s[1..][i - 1..i - 1 + |sub|] == s[i..i + |sub|];
          assert OccursAt(s[1..], sub, i - 1);
        }
      }
    }
  }

  /** A string is in itself. */
  lemma ContainsSelf(s: string)
    ensures Contains(s, s)
  {
  }

  /** Every character of an occurring substring is a character of `s`; so a
      character missing from `s` rules the substring out. */
  lemma {:induction false} ContainsChars(s: string, sub: string, j: int)
    requires Contains(s, sub)
    requires 0 <= j < |sub|
    ensures sub[j] in s
    decreases |s|
  {
    if StartsWith(s, sub) {
      assert s[j] == sub[j];
    } else {
      ContainsChars(s[1..], sub, j);
    }
  }

  /** A keyword with a character the option string lacks is not in it. */
  lemma MissingCharRulesOut(s: string, sub: string, c: char)
    requires c in sub && c !in s
    ensures !Contains(s, sub)
  {
    if Contains(s, sub) {
      var j :| 0 <= j < |sub| && sub[j] == c;
      ContainsChars(s, sub, j);
    }
  }
}
