/** Keys glued from two parts with a colon: the parts can be told apart when the first holds none. */
module Keys {

  /** Where the first part ends. */
  function FirstColon(key: string): nat {
    if key == "" || key[0] == ':' then 0 else 1 + FirstColon(key[1..])
  }

  lemma {:induction false} FirstPartEnds(first: string, second: string)
    requires ':' !in first
    ensures FirstColon(first + ":" + second) == |first|
  {
    if first != "" {
      assert (first + ":" + second)[1..] == first[1..] + ":" + second;
      FirstPartEnds(first[1..], second);
    }
  }

  lemma PartsToldApart(a: string, x: string, b: string, y: string)
    requires ':' !in a && ':' !in b && a + ":" + x == b + ":" + y
    ensures a == b && x == y
  {
    var key := a + ":" + x;
    FirstPartEnds(a, x);
    FirstPartEnds(b, y);
    assert a == key[..|a|] && b == key[..|b|];
    assert x == key[|a| + 1..] && y == key[|b| + 1..];
  }
}
