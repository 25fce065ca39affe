/** Substring search, the `String.prototype.includes` test that the list filters use. */
module Strings {

  /** `s.includes(t)`: `t` occurs somewhere in `s` as a contiguous block.
      Every string, the empty one included, includes "", and only a string at least as
      long as `t` can include it. */
  predicate Contains(s: string, t: string)
    ensures Contains(s, t) ==> |t| <= |s|
    decreases |s|
  {
    t <= s || (s != [] && Contains(s[1..], t))
  }

  /** The recursive test agrees with the positional reading: some suffix of `s` starts with `t`. */
  lemma {:induction false} ContainsAt(s: string, t: string)
    ensures Contains(s, t) <==> exists i :: 0 <= i <= |s| && t <= s[i..]
  {
    if s == [] {
      if t <= s {
        assert t <= s[0..];
      }
    } else {
      ContainsAt(s[1..], t);
      if Contains(s, t) {
        if t <= s {
          assert t <= s[0..];
        } else {
          var i :| 0 <= i <= |s[1..]| && t <= s[1..][i..];
          assert s[1..][i..] == s[i + 1..];
        }
      }
      if exists i :: 0 <= i <= |s| && t <= s[i..] {
        var i :| 0 <= i <= |s| && t <= s[i..];
        if i == 0 {
          assert s[0..] == s;
        } else {
          assert s[1..][i - 1..] == s[i..];
        }
      }
    }
  }

  /** Every string includes the empty string. */
  lemma ContainsEmpty(s: string)
    ensures Contains(s, "")
  {
  }
}
