/** Text as Python sees it: its white space, and one text standing inside another. */
module Texts {

  /** The characters `str.strip` removes and `\s` matches. */
  predicate IsSpace(c: char) {
    var n := c as int;
    || 0x09 <= n <= 0x0d || 0x1c <= n <= 0x20 || n == 0x85 || n == 0xa0 || n == 0x1680
    || 0x2000 <= n <= 0x200a || n == 0x2028 || n == 0x2029 || n == 0x202f || n == 0x205f || n == 0x3000
  }

  /** `part` stands in `text` from `at` on. */
  ghost predicate At(text: string, at: nat, part: string) {
    at + |part| <= |text| && forall i :: 0 <= i < |part| ==> text[at + i] == part[i]
  }

  lemma AtChar(text: string, at: nat, part: string, k: nat)
    requires At(text, at, part) && k < |part|
    ensures at + k < |text| && text[at + k] == part[k]
  {
  }

  lemma AtParts(text: string, at: nat, a: string, b: string)
    requires At(text, at, a + b)
    ensures At(text, at, a) && At(text, at + |a|, b)
  {
    assert forall k :: 0 <= k < |a| ==> (a + b)[k] == a[k];
    forall k | 0 <= k < |b| ensures text[at + |a| + k] == b[k] {
      assert text[at + (|a| + k)] == (a + b)[|a| + k];
    }
  }
}
