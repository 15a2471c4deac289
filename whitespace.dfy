/** The character class `\s` of JavaScript regular expressions and the
    maximal runs of non-whitespace characters that `\S+` matches. */
module Whitespace {

  /** `\s`: the WhiteSpace and LineTerminator code points of ECMAScript. */
  predicate IsSpace(c: char) {
    c == '\t' || c == '\n' || c == '\U{b}' || c == '\U{c}' || c == '\r' || c == ' '
    || c == '\U{a0}' || c == '\U{1680}' || ('\U{2000}' <= c <= '\U{200a}')
    || c == '\U{2028}' || c == '\U{2029}' || c == '\U{202f}' || c == '\U{205f}'
    || c == '\U{3000}' || c == '\U{feff}'
  }

  predicate NoSpace(s: string) {
    forall k :: 0 <= k < |s| ==> !IsSpace(s[k])
  }

  /** The end of the run of non-whitespace characters starting at `i`:
      what a greedy `\S*` starting at `i` consumes. */
  function RunEnd(s: string, i: nat): (e: nat)
    requires i <= |s|
    ensures i <= e <= |s|
    ensures NoSpace(s[i..e])
    ensures e < |s| ==> IsSpace(s[e])
    decreases |s| - i
  {
    if i == |s| || IsSpace(s[i]) then i
    else
      var e := RunEnd(s, i + 1);
      assert s[i..e] == [s[i]] + s[i + 1..e];
      e
  }

  /** A run of non-whitespace that is followed by whitespace or by the end
      of the text ends exactly there. */
  lemma {:induction false} RunEndAt(s: string, i: nat, e: nat)
    requires i <= e <= |s|
    requires NoSpace(s[i..e])
    requires e < |s| ==> IsSpace(s[e])
    ensures RunEnd(s, i) == e
    decreases e - i
  {
    if i < e {
      assert s[i..e][0] == s[i];
      assert s[i + 1..e] == s[i..e][1..];
      RunEndAt(s, i + 1, e);
    }
  }
}
