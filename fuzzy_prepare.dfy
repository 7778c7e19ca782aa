/**
 * Preprocessing of queries and targets for the fuzzy matcher
 * (packages/core/src/fuzzysort.ts, `prepareLowerInfo`, `prepareSearch`):
 * lowered character codes and the 32-bit character-class mask.
 */
module FuzzyPrepare {

  /**
   * What `prepareLowerInfo` and `prepareSearch` return. The 32-bit flag word
   * is modelled as the set of the bit numbers it has set, so the source's
   * `(a & b) !== a` becomes `a * b != a`.
   */
  datatype PreparedSearch = PreparedSearch(lowerCodes: seq<int>, bitflags: set<nat>, lower: string)

  /** `toLowerCase` on one character, restricted to ASCII. */
  function Lower(c: char): char
  {
    if 'A' <= c <= 'Z' then (c as int + 32) as char else c
  }

  function LowerString(s: string): string
  {
    seq(|s|, i requires 0 <= i < |s| => Lower(s[i]))
  }

  /** `charCodeAt` for every position. */
  function Codes(s: string): seq<int>
  {
    seq(|s|, i requires 0 <= i < |s| => s[i] as int)
  }

  /** The one mask bit a lowered code sets. */
  function CodeBit(code: int): (bit: nat)
    ensures bit < 26 <==> 97 <= code <= 122
    ensures bit < 26 ==> bit == code - 97
    ensures bit == 26 <==> 48 <= code <= 57
    ensures bit == 30 <==> code <= 127 && !(97 <= code <= 122) && !(48 <= code <= 57)
    ensures bit == 31 <==> code > 127
    ensures bit < 32 && !(27 <= bit <= 29)
  {
    if 97 <= code <= 122 then code - 97
    else if 48 <= code <= 57 then 26
    else if code <= 127 then 30
    else 31
  }

  /** The mask of a sequence of lowered codes, accumulated left to right. */
  function MaskOf(codes: seq<int>): set<nat>
  {
    if codes == [] then {} else MaskOf(codes[..|codes| - 1]) + {CodeBit(codes[|codes| - 1])}
  }

  /** A bit is in the mask exactly when some code of the sequence sets it. */
  lemma {:induction false} MaskBitIff(codes: seq<int>, b: nat)
    ensures b in MaskOf(codes) <==> exists i :: 0 <= i < |codes| && CodeBit(codes[i]) == b
  {
    if codes != [] {
      var init := codes[..|codes| - 1];
      MaskBitIff(init, b);
      if exists i :: 0 <= i < |init| && CodeBit(init[i]) == b {
        var i :| 0 <= i < |init| && CodeBit(init[i]) == b;
        assert codes[i] == init[i];
      }
      if b !in MaskOf(codes) {
        forall i | 0 <= i < |codes| ensures CodeBit(codes[i]) != b {
          if i < |init| { assert codes[i] == init[i]; }
        }
      }
    }
  }

  /** Only bits 0..26, 30 and 31 ever occur: bits 27, 28 and 29 are never set. */
  lemma {:induction false} MaskBitsInRange(codes: seq<int>)
    ensures forall b :: b in MaskOf(codes) ==> b < 32 && !(27 <= b <= 29)
  {
    if codes != [] {
      MaskBitsInRange(codes[..|codes| - 1]);
    }
  }

  /**
   * The pre-filter is sound: when every code of `q` occurs in `t`,
   * `MaskOf(q) * MaskOf(t) == MaskOf(q)`.
   */
  lemma {:induction false} MaskSubset(q: seq<int>, t: seq<int>)
    requires forall i :: 0 <= i < |q| ==> q[i] in t
    ensures MaskOf(q) * MaskOf(t) == MaskOf(q)
  {
    if q != [] {
      var init := q[..|q| - 1];
      var last := q[|q| - 1];
      MaskSubset(init, t);
      var j :| 0 <= j < |t| && t[j] == last;
      MaskBitIff(t, CodeBit(last));
    }
  }

  lemma CodesSnoc(s: string, i: nat)
    requires i < |s|
    ensures Codes(s[..i + 1]) == Codes(s[..i]) + [s[i] as int]
  {
  }

  lemma MaskSnoc(codes: seq<int>, c: int)
    ensures MaskOf(codes + [c]) == MaskOf(codes) + {CodeBit(c)}
  {
    assert (codes + [c])[..|codes|] == codes;
  }

  /** `prepareLowerInfo`: lowered string, its codes and its mask, in one pass. */
  method PrepareLowerInfo(str: string) returns (info: PreparedSearch)
    ensures info.lower == LowerString(str)
    ensures info.lowerCodes == Codes(info.lower)
    ensures info.bitflags == MaskOf(info.lowerCodes)
  {
    var lower := LowerString(str);
    var lowerCodes: seq<int> := [];
    var bitflags: set<nat> := {};
    for i := 0 to |str|
      invariant lowerCodes == Codes(lower[..i])
      invariant bitflags == MaskOf(lowerCodes)
    {
      var lowerCode := lower[i] as int;
      CodesSnoc(lower, i);
      MaskSnoc(lowerCodes, lowerCode);
      lowerCodes := lowerCodes + [lowerCode];
      var bit := if 97 <= lowerCode <= 122 then lowerCode - 97
                 else if 48 <= lowerCode <= 57 then 26
                 else if lowerCode <= 127 then 30
                 else 31;
      bitflags := bitflags + {bit};
    }
    assert lower[..|str|] == lower;
    info := PreparedSearch(lowerCodes, bitflags, lower);
  }

  /** The characters `String.prototype.trim` removes (white space and line terminators). */
  predicate IsJsWhitespace(c: char)
  {
    var n := c as int;
    (0x09 <= n <= 0x0D) || n == 0x20 || n == 0xA0 || n == 0x1680 || (0x2000 <= n <= 0x200A)
    || n == 0x2028 || n == 0x2029 || n == 0x202F || n == 0x205F || n == 0x3000 || n == 0xFEFF
  }

  /** `trimStart`: the input without its leading white space, and only that. */
  function TrimStart(s: string): (r: string)
    ensures |r| <= |s| && r == s[|s| - |r|..]
    ensures r == [] || !IsJsWhitespace(r[0])
    ensures forall i :: 0 <= i < |s| - |r| ==> IsJsWhitespace(s[i])
  {
    if s != [] && IsJsWhitespace(s[0]) then
      var r := TrimStart(s[1..]);
      assert forall i :: 1 <= i < |s| - |r| ==> s[1..][i - 1] == s[i];
      r
    else s
  }

  /** `trimEnd`: the input without its trailing white space, and only that. */
  function TrimEnd(s: string): (r: string)
    ensures |r| <= |s| && r == s[..|r|]
    ensures r == [] || !IsJsWhitespace(r[|r| - 1])
    ensures forall i :: |r| <= i < |s| ==> IsJsWhitespace(s[i])
  {
    if s != [] && IsJsWhitespace(s[|s| - 1]) then
      var r := TrimEnd(s[..|s| - 1]);
      assert forall i :: |r| <= i < |s| - 1 ==> s[..|s| - 1][i] == s[i];
      r
    else s
  }

  /**
   * `trim`: the slice of the input left once the white space at both ends is
   * cut off; it neither starts nor ends with white space.
   */
  function Trim(s: string): (r: string)
    ensures |r| <= |s|
    ensures r == [] || (!IsJsWhitespace(r[0]) && !IsJsWhitespace(r[|r| - 1]))
    ensures exists a, b :: 0 <= a <= b <= |s| && r == s[a..b]
                           && (forall i :: 0 <= i < a || b <= i < |s| ==> IsJsWhitespace(s[i]))
  {
    var t := TrimStart(s);
    var r := TrimEnd(t);
    var a := |s| - |t|;
    assert r == s[a..a + |r|];
    assert forall i :: a + |r| <= i < |s| ==> s[i] == t[i - a];
    r
  }

  /** `prepareSearch`: trim, then lower and mask. */
  method PrepareSearch(search: string) returns (prepared: PreparedSearch)
    ensures prepared.lower == LowerString(Trim(search))
    ensures prepared.lowerCodes == Codes(prepared.lower)
    ensures prepared.bitflags == MaskOf(prepared.lowerCodes)
  {
    var trimmed := Trim(search);
    prepared := PrepareLowerInfo(trimmed);
  }
}
