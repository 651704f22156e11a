/** Strings as JavaScript sees them: sequences of UTF-16 code units. */
module Utf16 {
  /** A UTF-16 code unit: the number `charCodeAt` returns. */
  newtype CodeUnit = n: int | 0 <= n < 0x1_0000

  /** The UTF-16 code units of a string, as `charCodeAt` reads them. */
  function CodeUnits(s: string): (r: seq<CodeUnit>)
    ensures |s| <= |r| <= 2 * |s|
  {
    if s == [] then [] else CharUnits(s[0]) + CodeUnits(s[1..])
  }

  /** One character in UTF-16: itself below U+10000, otherwise a surrogate pair. */
  function CharUnits(c: char): (r: seq<CodeUnit>)
    ensures 1 <= |r| <= 2
    ensures c as int < 0x1_0000 <==> |r| == 1
    ensures c as int < 0x1_0000 ==> r[0] as int == c as int
    ensures c as int >= 0x1_0000 ==>
      0xD800 <= r[0] as int < 0xDC00 && 0xDC00 <= r[1] as int < 0xE000
      && 0x1_0000 + (r[0] as int - 0xD800) * 0x400 + (r[1] as int - 0xDC00) == c as int
  {
    var n := c as int;
    if n < 0x1_0000 then [n as CodeUnit]
    else
      var v := n - 0x1_0000;
      [(0xD800 + v / 0x400) as CodeUnit, (0xDC00 + v % 0x400) as CodeUnit]
  }

  /** A string inside the Basic Multilingual Plane has one code unit per character, its code point. */
  lemma {:induction false} CodeUnitsBmp(s: string)
    requires forall i :: 0 <= i < |s| ==> s[i] as int < 0x1_0000
    ensures |CodeUnits(s)| == |s|
    ensures forall i :: 0 <= i < |s| ==> CodeUnits(s)[i] as int == s[i] as int
  {
    if s != [] {
      CodeUnitsBmp(s[1..]);
      var rest := CodeUnits(s[1..]);
      assert |CharUnits(s[0])| == 1;
      assert CodeUnits(s) == CharUnits(s[0]) + rest;
      forall i | 0 < i < |s|
        ensures CodeUnits(s)[i] as int == s[i] as int
      {
        assert CodeUnits(s)[i] == rest[i - 1];
        assert s[i] == s[1..][i - 1];
      }
    }
  }
}
