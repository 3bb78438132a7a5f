/** `str.strip` and the lower-casing the modules compare with. */
module Text {
  /** The characters Python counts as white space. */
  predicate IsSpace(c: char) {
    var n := c as int;
    || 0x09 <= n <= 0x0D || 0x1C <= n <= 0x20 || n == 0x85 || n == 0xA0 || n == 0x1680
    || 0x2000 <= n <= 0x200A || n == 0x2028 || n == 0x2029 || n == 0x202F || n == 0x205F || n == 0x3000
  }

  function StripLeft(s: string): (r: string)
    ensures |r| <= |s|
  {
    if s != "" && IsSpace(s[0]) then StripLeft(s[1..]) else s
  }

  function StripRight(s: string): (r: string)
    ensures |r| <= |s|
  {
    if s != "" && IsSpace(s[|s| - 1]) then StripRight(s[..|s| - 1]) else s
  }

  function Strip(s: string): string {
    StripRight(StripLeft(s))
  }

  /** Neither end is white space. */
  predicate IsStripped(s: string) {
    s == "" || (!IsSpace(s[0]) && !IsSpace(s[|s| - 1]))
  }

  lemma {:induction false} StripRightKeepsFirst(s: string)
    ensures var r := StripRight(s);
            r != "" ==> s != "" && r[0] == s[0] && !IsSpace(r[|r| - 1])
  {
    if s != "" && IsSpace(s[|s| - 1]) {
      StripRightKeepsFirst(s[..|s| - 1]);
    }
  }

  lemma {:induction false} StripLeftFirst(s: string)
    ensures var r := StripLeft(s);
            r != "" ==> !IsSpace(r[0])
  {
    if s != "" && IsSpace(s[0]) {
      StripLeftFirst(s[1..]);
    }
  }

  lemma StripStrips(s: string)
    ensures IsStripped(Strip(s))
  {
    StripLeftFirst(s);
    StripRightKeepsFirst(StripLeft(s));
  }

  /** Stripping changes exactly the strings that are not stripped. */
  lemma StripFixes(s: string)
    ensures Strip(s) == s <==> IsStripped(s)
  {
    StripStrips(s);
  }

  lemma StripTwice(s: string)
    ensures Strip(Strip(s)) == Strip(s)
  {
    StripStrips(s);
    StripFixes(Strip(s));
  }

  /** ASCII lower-casing. */
  function Lower(s: string): (r: string)
    ensures |r| == |s|
  {
    seq(|s|, i requires 0 <= i < |s| => if 'A' <= s[i] <= 'Z' then (s[i] as int + 32) as char else s[i])
  }
}
