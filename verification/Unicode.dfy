// UTF-8 to UTF-16 conversion of utils/Unicode.cpp, on bit vectors.
module Unicode {
  import opened Wrappers

  // utf8_codepoint_len.
  function CodepointLen(ch: bv8): (n: nat)
    ensures 1 <= n <= 4
  {
    var code: bv32 := ((0xe5000000 as bv32) >> (((ch as bv32) >> 3) & 0x1e)) & 3;
    if code == 0 then 1 else if code == 1 then 2 else if code == 2 then 3 else 4
  }

  // The table is right: the length follows from the leading bits.
  lemma CodepointLenIs(ch: bv8)
    ensures CodepointLen(ch) == if ch & 0xf0 == 0xf0 then 4 else if ch & 0xf0 == 0xe0 then 3
                                else if ch & 0xe0 == 0xc0 then 2 else 1
  {
  }

  function ShiftAndMask(codePoint: bv32, ch: bv8): bv32 {
    (codePoint << 6) | (0x3f & ch as bv32)
  }

  // utf8_to_utf32_codepoint.
  function Codepoint(s: seq<bv8>): bv32
    requires 1 <= |s| <= 4
  {
    if |s| == 1 then s[0] as bv32
    else if |s| == 2 then ShiftAndMask((s[0] & 0x1f) as bv32, s[1])
    else if |s| == 3 then ShiftAndMask(ShiftAndMask((s[0] & 0x0f) as bv32, s[1]), s[2])
    else ShiftAndMask(ShiftAndMask(ShiftAndMask((s[0] & 0x07) as bv32, s[1]), s[2]), s[3])
  }

  // One or two units for a code point, as the conversion writes them.
  function Units(c: bv32): (u: seq<bv16>)
    ensures 1 <= |u| <= 2
  {
    if c <= 0xffff then [(c & 0xffff) as bv16]
    else [((((c - 0x10000) >> 10) + 0xd800) & 0xffff) as bv16, ((((c - 0x10000) & 0x3ff) + 0xdc00) & 0xffff) as bv16]
  }

  // The code points of a string, or None when the last one is cut off.
  function Decode(s: seq<bv8>): Option<seq<bv32>>
    decreases |s|
  {
    if s == [] then Some([])
    else
      var n := CodepointLen(s[0]);
      if n > |s| then None
      else
        var rest := Decode(s[n..]);
        if rest.None? then None else Some([Codepoint(s[..n])] + rest.value)
  }

  function AllUnits(cs: seq<bv32>): seq<bv16> {
    if cs == [] then [] else Units(cs[0]) + AllUnits(cs[1..])
  }

  // Section 3 of RFC 3629.
  predicate IsScalar(c: bv32) {
    c <= 0x10ffff && !(0xd800 <= c <= 0xdfff)
  }

  // The first byte of several, with the mark of their number, and the following ones.
  function Lead(mark: bv32, c: bv32): bv8 {
    ((mark | c) & 0xff) as bv8
  }

  function Following(c: bv32): bv8 {
    ((0x80 | (c & 0x3f)) & 0xff) as bv8
  }

  function Utf8(c: bv32): (s: seq<bv8>)
    requires IsScalar(c)
    ensures 1 <= |s| <= 4
  {
    if c <= 0x7f then [Lead(0, c)]
    else if c <= 0x7ff then [Lead(0xc0, c >> 6), Following(c)]
    else if c <= 0xffff then [Lead(0xe0, c >> 12), Following(c >> 6), Following(c)]
    else [Lead(0xf0, c >> 18), Following(c >> 12), Following(c >> 6), Following(c)]
  }

  // Section 2.1 of RFC 2781.
  function Utf16(c: bv32): seq<bv16>
    requires IsScalar(c)
  {
    if c < 0x10000 then [(c & 0xffff) as bv16]
    else
      var u := c - 0x10000;
      [0xd800 | ((u >> 10) & 0x3ff) as bv16, 0xdc00 | (u & 0x3ff) as bv16]
  }

  lemma UnitsOfScalar(c: bv32)
    requires IsScalar(c)
    ensures Units(c) == Utf16(c)
  {
  }

  // The bytes s are one code point, c.  Decoding undoes encoding, by number of bytes.
  predicate DecodesTo(s: seq<bv8>, c: bv32) {
    1 <= |s| <= 4 && CodepointLen(s[0]) == |s| && Codepoint(s) == c
  }

  lemma OneDecodes(c: bv32)
    requires c <= 0x7f
    ensures DecodesTo([Lead(0, c)], c)
  {
  }

  lemma TwoDecode(c: bv32)
    requires 0x7f < c <= 0x7ff
    ensures DecodesTo([Lead(0xc0, c >> 6), Following(c)], c)
  {
  }

  lemma ThreeDecode(c: bv32)
    requires 0x7ff < c <= 0xffff
    ensures DecodesTo([Lead(0xe0, c >> 12), Following(c >> 6), Following(c)], c)
  {
  }

  lemma FourDecode(c: bv32)
    requires 0xffff < c <= 0x10ffff
    ensures DecodesTo([Lead(0xf0, c >> 18), Following(c >> 12), Following(c >> 6), Following(c)], c)
  {
  }

  lemma CodepointOfUtf8(c: bv32)
    requires IsScalar(c)
    ensures DecodesTo(Utf8(c), c)
  {
    if c <= 0x7f {
      OneDecodes(c);
    } else if c <= 0x7ff {
      TwoDecode(c);
    } else if c <= 0xffff {
      ThreeDecode(c);
    } else {
      FourDecode(c);
    }
  }

  function Utf8All(cs: seq<bv32>): seq<bv8>
    requires forall i :: 0 <= i < |cs| ==> IsScalar(cs[i])
  {
    if cs == [] then [] else Utf8(cs[0]) + Utf8All(cs[1..])
  }

  function Utf16All(cs: seq<bv32>): seq<bv16>
    requires forall i :: 0 <= i < |cs| ==> IsScalar(cs[i])
  {
    if cs == [] then [] else Utf16(cs[0]) + Utf16All(cs[1..])
  }

  // The UTF-8 form of any scalar values becomes their UTF-16 form.
  lemma {:induction false} EncodingsAgree(cs: seq<bv32>)
    requires forall i :: 0 <= i < |cs| ==> IsScalar(cs[i])
    ensures Decode(Utf8All(cs)) == Some(cs) && AllUnits(cs) == Utf16All(cs)
  {
    if cs == [] {
    } else {
      var first, rest := Utf8(cs[0]), Utf8All(cs[1..]);
      EncodingsAgree(cs[1..]);
      UnitsOfScalar(cs[0]);
      CodepointOfUtf8(cs[0]);
      assert (first + rest)[0] == first[0] && (first + rest)[..|first|] == first && (first + rest)[|first|..] == rest;
      assert [cs[0]] + cs[1..] == cs;
    }
  }

  lemma {:induction false} UnitsBoth(a: seq<bv32>, b: seq<bv32>)
    ensures AllUnits(a + b) == AllUnits(a) + AllUnits(b)
  {
    if a == [] {
      assert a + b == b;
    } else {
      assert (a + b)[1..] == a[1..] + b;
      UnitsBoth(a[1..], b);
    }
  }

  lemma {:induction false} OneMoreUnit(cs: seq<bv32>, i: nat)
    requires i < |cs|
    ensures AllUnits(cs[..i + 1]) == AllUnits(cs[..i]) + Units(cs[i])
  {
    assert cs[..i + 1] == cs[..i] + [cs[i]];
    UnitsBoth(cs[..i], [cs[i]]);
    assert AllUnits([cs[i]]) == Units(cs[i]) + AllUnits([]);
  }

  // How many code points fit into so many units, none cut in half.
  function FitCount(cs: seq<bv32>, room: nat): (k: nat)
    ensures k <= |cs|
  {
    if cs == [] || |Units(cs[0])| > room then 0 else 1 + FitCount(cs[1..], room - |Units(cs[0])|)
  }

  // It is the longest prefix.
  lemma {:induction false} FitIs(cs: seq<bv32>, room: nat, i: nat)
    requires i <= |cs| && |AllUnits(cs[..i])| <= room
    requires i < |cs| ==> |AllUnits(cs[..i + 1])| > room
    ensures FitCount(cs, room) == i
  {
    if i > 0 {
      var u := |Units(cs[0])|;
      assert cs[..i][1..] == cs[1..][..i - 1];
      if i < |cs| {
        assert cs[..i + 1][1..] == cs[1..][..i];
      }
      FitIs(cs[1..], room - u, i - 1);
    } else if cs != [] {
      OneMoreUnit(cs, 0);
      assert cs[..0] == [];
    }
  }

  lemma {:induction false} FitFits(cs: seq<bv32>, room: nat)
    ensures |AllUnits(cs[..FitCount(cs, room)])| <= room
    ensures forall j :: FitCount(cs, room) < j <= |cs| ==> |AllUnits(cs[..j])| > room
  {
    var k := FitCount(cs, room);
    if cs == [] || |Units(cs[0])| > room {
      assert cs[..0] == [];
      forall j | 0 < j <= |cs| ensures |AllUnits(cs[..j])| > room {
        assert cs[..j][0] == cs[0];
      }
    } else {
      var rest, left := cs[1..], room - |Units(cs[0])|;
      FitFits(rest, left);
      assert cs[..k][1..] == rest[..k - 1];
      forall j | k < j <= |cs| ensures |AllUnits(cs[..j])| > room {
        assert cs[..j][1..] == rest[..j - 1];
      }
    }
  }

  // How many units the bytes from i on need.
  function Measure(s: seq<bv8>, i: nat): Option<nat>
    requires i <= |s|
  {
    var d := Decode(s[i..]);
    if d.None? then None else Some(|AllUnits(d.value)|)
  }

  lemma {:induction false} MeasureFrom(s: seq<bv8>, i: nat)
    requires i < |s|
    ensures var n := CodepointLen(s[i]);
            if i + n > |s| then Measure(s, i) == None
            else var rest := Measure(s, i + n);
                 Measure(s, i) == if rest.None? then None else Some(|Units(Codepoint(s[i..i + n]))| + rest.value)
  {
    if i + CodepointLen(s[i]) <= |s| {
      DecodeFrom(s, i);
    }
  }

  // utf8_to_utf16_length: -1 when the last code point is cut off.
  method Utf8ToUtf16Length(u8str: seq<bv8>) returns (r: int)
    ensures r == if Decode(u8str).None? then -1 else |AllUnits(Decode(u8str).value)|
  {
    var u8cur := 0;
    var u16measuredLen := 0;
    assert u8str[0..] == u8str;
    ghost var all := Measure(u8str, 0);
    while u8cur < |u8str|
      invariant u8cur <= |u8str|
      invariant all == if Measure(u8str, u8cur).None? then None else Some(u16measuredLen + Measure(u8str, u8cur).value)
    {
      MeasureFrom(u8str, u8cur);
      u16measuredLen := u16measuredLen + 1;
      var u8charLen := CodepointLen(u8str[u8cur]);
      if u8cur + u8charLen - 1 >= |u8str| {
        return -1;
      }
      if Codepoint(u8str[u8cur..u8cur + u8charLen]) > 0xffff {
        u16measuredLen := u16measuredLen + 1;
      }
      u8cur := u8cur + u8charLen;
    }
    if u8cur != |u8str| {
      return -1;
    }
    assert Measure(u8str, u8cur) == Some(0);
    return u16measuredLen;
  }

  // One step of decoding, in the middle of a string.
  lemma {:induction false} DecodeFrom(s: seq<bv8>, i: nat)
    requires i < |s| && i + CodepointLen(s[i]) <= |s|
    ensures var n := CodepointLen(s[i]);
            var rest := Decode(s[i + n..]);
            Decode(s[i..]) == if rest.None? then None else Some([Codepoint(s[i..i + n])] + rest.value)
  {
    var n := CodepointLen(s[i]);
    var t := s[i..];
    assert t[n..] == s[i + n..];
    assert t[..n] == s[i..i + n];
  }

  // Writing one code point; full tells that only half of its pair fitted.
  method WriteUnits(c: bv32, dst: array<bv16>, u16cur: nat, dstLen: nat) returns (next: nat, full: bool)
    requires u16cur < dstLen <= dst.Length
    modifies dst
    ensures full <==> u16cur + |Units(c)| > dstLen
    ensures if full then next == u16cur + 1 && dst[..u16cur] == old(dst[..u16cur])
            else next == u16cur + |Units(c)| && dst[..next] == old(dst[..u16cur]) + Units(c)
    ensures dst[dstLen..] == old(dst[dstLen..])
  {
    if c <= 0xffff {
      dst[u16cur] := (c & 0xffff) as bv16;
      return u16cur + 1, false;
    }
    var codepoint := c - 0x10000;
    dst[u16cur] := (((codepoint >> 10) + 0xd800) & 0xffff) as bv16;
    next := u16cur + 1;
    if next >= dstLen {
      return next, true;
    }
    dst[next] := (((codepoint & 0x3ff) + 0xdc00) & 0xffff) as bv16;
    return next + 1, false;
  }

  // After i code points, at u8cur in the bytes and u16cur in the units.
  ghost predicate Converted(src: seq<bv8>, cs: seq<bv32>, u8cur: nat, i: nat, written: seq<bv16>) {
    && u8cur <= |src| && i <= |cs|
    && Decode(src[u8cur..]) == Some(cs[i..]) && written == AllUnits(cs[..i])
  }

  lemma {:induction false} ConvertedOneMore(src: seq<bv8>, cs: seq<bv32>, u8cur: nat, i: nat, written: seq<bv16>)
    requires Converted(src, cs, u8cur, i, written) && u8cur < |src|
    ensures i < |cs| && u8cur + CodepointLen(src[u8cur]) <= |src|
    ensures var n := CodepointLen(src[u8cur]);
            && Codepoint(src[u8cur..u8cur + n]) == cs[i]
            && Converted(src, cs, u8cur + n, i + 1, written + Units(cs[i]))
  {
    assert src[u8cur..] != [] && src[u8cur..][0] == src[u8cur];
    assert cs[i..] != [];
    DecodeFrom(src, u8cur);
    OneMoreUnit(cs, i);
    assert cs[i..][1..] == cs[i + 1..];
  }

  // One round of the loop of utf8_to_utf16_no_null_terminator.  Converting is still true of the
  // whole code points when full is set, and next is one unit too far then.
  method ConvertNext(src: seq<bv8>, dst: array<bv16>, dstLen: nat, u8cur: nat, u16cur: nat,
                     ghost cs: seq<bv32>, ghost i: nat, ghost written: seq<bv16>)
    returns (u8next: nat, next: nat, full: bool)
    requires u8cur < |src| && u16cur < dstLen <= dst.Length
    requires dst[..u16cur] == written && Converted(src, cs, u8cur, i, written)
    modifies dst
    ensures i < |cs| && dst[dstLen..] == old(dst[dstLen..])
    ensures full <==> |written| + |Units(cs[i])| > dstLen
    ensures full ==> next == u16cur + 1 && dst[..u16cur] == written
    ensures !full ==>
              && u8cur < u8next && next <= dstLen && dst[..next] == written + Units(cs[i])
              && Converted(src, cs, u8next, i + 1, written + Units(cs[i]))
  {
    ConvertedOneMore(src, cs, u8cur, i, written);
    var u8len := CodepointLen(src[u8cur]);
    u8next := u8cur + u8len;
    next, full := WriteUnits(Codepoint(src[u8cur..u8next]), dst, u16cur, dstLen);
  }

  // What was written is what fits, when the next code point does not fit any more, or there is none.
  lemma {:induction false} WrittenFits(cs: seq<bv32>, i: nat, written: seq<bv16>, dstLen: nat)
    requires i <= |cs| && written == AllUnits(cs[..i]) && |written| <= dstLen
    requires i < |cs| ==> |written| + |Units(cs[i])| > dstLen
    ensures written == AllUnits(cs[..FitCount(cs, dstLen)])
  {
    if i < |cs| {
      OneMoreUnit(cs, i);
    }
    FitIs(cs, dstLen, i);
  }

  // utf8_to_utf16_no_null_terminator, on a string whose length could be measured: as many whole
  // code points as fit.  When half a pair was written before the end was seen, it is not counted.
  method Utf8ToUtf16NoNull(src: seq<bv8>, dst: array<bv16>, dstLen: nat) returns (end: nat)
    requires Decode(src).Some? && dstLen <= dst.Length
    modifies dst
    ensures var cs := Decode(src).value;
            var written := AllUnits(cs[..FitCount(cs, dstLen)]);
            end == |written| <= dstLen && dst[..end] == written
    ensures dst[dstLen..] == old(dst[dstLen..])
  {
    ghost var cs := Decode(src).value;
    ghost var i, written := 0, [];
    var u8cur, u16cur := 0, 0;
    assert src[0..] == src && cs[0..] == cs && cs[..0] == [];
    while u8cur < |src| && u16cur < dstLen
      invariant 0 <= u16cur <= dstLen && dst[..u16cur] == written && Converted(src, cs, u8cur, i, written)
      invariant dst[dstLen..] == old(dst[dstLen..])
      decreases |src| - u8cur
    {
      var u8next, next, full := ConvertNext(src, dst, dstLen, u8cur, u16cur, cs, i, written);
      if full {
        WrittenFits(cs, i, written, dstLen);
        return next - 1;
      }
      u8cur, u16cur := u8next, next;
      i, written := i + 1, written + Units(cs[i]);
    }
    WrittenFits(cs, i, written, dstLen);
    return u16cur;
  }

  // utf8_to_utf16.
  method Utf8ToUtf16(u8str: seq<bv8>, u16str: array<bv16>, u16len: nat) returns (end: nat)
    requires Decode(u8str).Some? && 0 < u16len <= u16str.Length
    modifies u16str
    ensures var cs := Decode(u8str).value;
            var written := AllUnits(cs[..FitCount(cs, u16len - 1)]);
            end == |written| < u16len && u16str[..end + 1] == written + [0]
  {
    end := Utf8ToUtf16NoNull(u8str, u16str, u16len - 1);
    u16str[end] := 0;
  }

  // Measuring and then converting into that many units and one for the terminator loses nothing.
  method MeasureAndConvert(u8str: seq<bv8>) returns (u16str: array?<bv16>)
    ensures u16str == null <==> Decode(u8str).None?
    ensures u16str != null ==> fresh(u16str) && u16str[..] == AllUnits(Decode(u8str).value) + [0]
  {
    var n := Utf8ToUtf16Length(u8str);
    if n < 0 {
      return null;
    }
    u16str := new bv16[n + 1];
    ghost var cs := Decode(u8str).value;
    assert cs[..|cs|] == cs;
    FitIs(cs, n, |cs|);
    var end := Utf8ToUtf16(u8str, u16str, n + 1);
    assert u16str[..] == u16str[..end + 1];
  }
}
