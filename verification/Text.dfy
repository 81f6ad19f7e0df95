/** Strings as JavaScript trims them. */
module Text {

  /** JavaScript's white space. */
  predicate IsSpace(c: char) {
    var code := c as int;
    || 0x09 <= code <= 0x0d || code == 0x20 || code == 0xa0 || code == 0x1680 || 0x2000 <= code <= 0x200a
    || code == 0x2028 || code == 0x2029 || code == 0x202f || code == 0x205f || code == 0x3000 || code == 0xfeff
  }

  function TrimStart(s: string): (r: string)
    ensures |r| <= |s| && r == s[|s| - |r|..]
    ensures r != "" ==> !IsSpace(r[0])
    ensures forall k :: 0 <= k < |s| - |r| ==> IsSpace(s[k])
  {
    if s != "" && IsSpace(s[0]) then TrimStart(s[1..]) else s
  }

  function TrimEnd(s: string): (r: string)
    ensures |r| <= |s| && r == s[..|r|]
    ensures r != "" ==> !IsSpace(r[|r| - 1])
    ensures forall k :: |r| <= k < |s| ==> IsSpace(s[k])
  {
    if s != "" && IsSpace(s[|s| - 1]) then TrimEnd(s[..|s| - 1]) else s
  }

  function Trim(s: string): (r: string)
    ensures forall c :: c in r ==> c in s
  {
    TrimEnd(TrimStart(s))
  }

  /** A text that neither begins nor ends with white space stays as it is. */
  lemma {:induction false} TrimKeeps(s: string)
    requires s != "" ==> !IsSpace(s[0]) && !IsSpace(s[|s| - 1])
    ensures Trim(s) == s
  {
  }

  lemma {:induction false} TrimTwice(s: string)
    ensures Trim(Trim(s)) == Trim(s)
  {
    var t := TrimStart(s);
    assert TrimEnd(t) != "" ==> TrimEnd(t)[0] == t[0];
    TrimKeeps(Trim(s));
  }
}
