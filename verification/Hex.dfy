/** Hexadecimal text of byte strings. */
module Hex {
  import opened Prelude
  import opened MacScan

  function Encode(s: seq<byte>): (r: string)
    ensures |r| == 2 * |s|
    ensures Decode(r) == Some(s)
  {
    if s == [] then []
    else
      var r := HexByte(s[0]) + Encode(s[1..]);
      assert r[2..] == Encode(s[1..]) && r[0] == HexByte(s[0])[0] && r[1] == HexByte(s[0])[1];
      assert [s[0]] + s[1..] == s;
      r
  }

  /** Either case is accepted; an odd length or any other character is not. */
  function Decode(t: string): Option<seq<byte>> {
    if t == [] then Some([])
    else if |t| == 1 || HexValue(t[0]).None? || HexValue(t[1]).None? then None
    else
      var rest := Decode(t[2..]);
      if rest.None? then None
      else Some([HexValue(t[0]).value as int * 16 + HexValue(t[1]).value] + rest.value)
  }
}
