/** The loops of curl/lib/base64.c: output written through moving positions, symbols looked up in a table of 256 bytes. */
module Base64Loops {
  import opened Bytes
  import opened Base64

  // ---------- decoding ----------

  /** `decodetable`, the values from '+' (43) to 'z' (122): '+' to '/', the digits, ':' to '@', the capitals, '[' to '`',
      the small letters. */
  function DecodeTable(): seq<int>
  {
    [62, 255, 255, 255, 63] + Digits() + [255, 255, 255, 255, 255, 255, 255] + Capitals()
    + [255, 255, 255, 255, 255, 255] + Smalls()
  }

  function Digits(): seq<int>
  {
    [52, 53, 54, 55, 56, 57, 58, 59, 60, 61]
  }

  function Capitals(): seq<int>
  {
    [0, 1, 2, 3, 4, 5, 6, 7, 8, 9, 10, 11, 12, 13, 14, 15, 16, 17, 18, 19, 20, 21, 22, 23, 24, 25]
  }

  function Smalls(): seq<int>
  {
    [26, 27, 28, 29, 30, 31, 32, 33, 34, 35, 36, 37, 38, 39, 40, 41, 42, 43, 44, 45, 46, 47, 48, 49, 50, 51]
  }

  const FIRST: nat := 43

  lemma DigitAt(i: nat)
    ensures |Digits()| == 10 && (i < 10 ==> Digits()[i] == 52 + i)
  {
  }

  lemma CapitalAt(i: nat)
    ensures |Capitals()| == 26 && (i < 26 ==> Capitals()[i] == i)
  {
  }

  lemma SmallAt(i: nat)
    ensures |Smalls()| == 26 && (i < 26 ==> Smalls()[i] == 26 + i)
  {
  }

  lemma TableHoldsValues(c: byte)
    requires FIRST <= c as nat < FIRST + 80
    ensures |DecodeTable()| == 80 && DecodeTable()[c as nat - FIRST] == Value(c)
  {
    hide Digits, Capitals, Smalls;
    var i := c as nat - FIRST;
    DigitAt(if 5 <= i < 15 then i - 5 else 0);
    CapitalAt(if 22 <= i < 48 then i - 22 else 0);
    SmallAt(if i >= 54 then i - 54 else 0);
  }

  ghost predicate IsLookup(lookup: array<int>)
    reads lookup
  {
    lookup.Length == 256 && forall c: byte :: lookup[c as nat] == Value(c)
  }

  /** The table: 0xff everywhere, then `decodetable` from '+' on. */
  method MakeLookup() returns (lookup: array<int>)
    ensures fresh(lookup) && IsLookup(lookup)
  {
    hide DecodeTable;
    lookup := new int[256](_ => 255);
    TableSize();
    forall i | 0 <= i < 80 {
      lookup[FIRST + i] := DecodeTable()[i];
    }
    forall c: byte ensures lookup[c as nat] == Value(c) {
      if FIRST <= c as nat < FIRST + 80 {
        TableHoldsValues(c);
        assert lookup[FIRST + (c as nat - FIRST)] == DecodeTable()[c as nat - FIRST];
      }
    }
  }

  lemma TableSize()
    ensures |DecodeTable()| == 80
  {
    hide Digits, Capitals, Smalls;
    DigitAt(0);
    CapitalAt(0);
    SmallAt(0);
  }

  /** The group of the first `j` symbols at `at`. */
  function Partial(src: seq<byte>, at: nat, j: nat): nat
    requires at + j <= |src|
  {
    if j == 0 then 0 else Partial(src, at, j - 1) * 64 + Value(src[at + j - 1])
  }

  lemma PartialUnites(src: seq<byte>, at: nat)
    requires at + 4 <= |src|
    ensures Partial(src, at, 4) == Unite(src[at..at + 4])
  {
    var s := src[at..at + 4];
    assert Partial(src, at, 1) == Value(s[0]);
    assert Partial(src, at, 2) == Value(s[0]) * 64 + Value(s[1]);
    assert Partial(src, at, 3) == Partial(src, at, 2) * 64 + Value(s[2]);
  }

  /** Four symbols of a full quantum. */
  method ReadQuantum(src: seq<byte>, at: nat, lookup: array<int>) returns (ok: bool, x: nat)
    requires at + 4 <= |src| && IsLookup(lookup)
    ensures ok == Alphabet(src[at..at + 4]) && (ok ==> x == Unite(src[at..at + 4]))
  {
    hide Value, Unite;
    ghost var q := src[at..at + 4];
    x := 0;
    var j := 0;
    while j < 4
      invariant 0 <= j <= 4 && x == Partial(src, at, j)
      invariant forall k :: 0 <= k < j ==> Value(q[k]) != BAD
    {
      var val := lookup[src[at + j] as nat];
      assert val == Value(src[at + j]) && q[j] == src[at + j];
      if val == 0xff {
        assert q[j] in q;
        return false, x;
      }
      x := x * 64 + val;
      j := j + 1;
    }
    PartialUnites(src, at);
    ok := true;
  }

  /** The last quantum, in which `=` counts as a zero symbol but only as often as there is padding. */
  method ReadPadded(src: seq<byte>, at: nat, padding: nat, lookup: array<int>) returns (ok: bool, x: nat)
    requires at + 4 == |src| && IsLookup(lookup)
    ensures (ok, x) == DecodePadded(src[at..], padding, 0, 0)
  {
    hide Value, DecodePadded;
    x := 0;
    var padc: nat := 0;
    var j: nat := 0;
    while j < 4
      invariant j <= 4 && DecodePadded(src[at + j..], padding, x, padc) == DecodePadded(src[at..], padding, 0, 0)
    {
      PaddedStep(src[at + j..], padding, x, padc);
      assert src[at + j..][1..] == src[at + j + 1..] && src[at + j..][0] == src[at + j];
      if src[at + j] == PAD {
        x := x * 64;
        padc := padc + 1;
        if padc > padding {
          return false, 0;
        }
      } else {
        var val := lookup[src[at + j] as nat];
        if val == 0xff {
          return false, 0;
        }
        x := x * 64 + val;
      }
      j := j + 1;
    }
    assert src[at + 4..] == [];
    PaddedNothing(padding, x, padc);
    ok := true;
  }

  function ThreeBytes(x: nat): seq<byte>
  {
    [ByteOf(x, 0), ByteOf(x, 1), ByteOf(x, 2)]
  }

  lemma {:induction false} FullSnoc(a: seq<byte>, q: seq<byte>)
    requires |a| % 4 == 0 && |q| == 4
    ensures DecodeFull(a + q) == if DecodeFull(a).Ok? && Alphabet(q) then Ok(DecodeFull(a).data + ThreeBytes(Unite(q)))
                                 else BadContentEncoding
    decreases |a|
  {
    hide Alphabet, Unite, ByteOf;
    if a == [] {
      assert a + q == q && q[..4] == q && q[4..] == [];
      assert ThreeBytes(Unite(q)) + [] == [] + ThreeBytes(Unite(q));
    } else {
      var s := a + q;
      assert s[..4] == a[..4] && s[4..] == a[4..] + q;
      FullSnoc(a[4..], q);
      if DecodeFull(a[4..]).Ok? {
        Associate(ThreeBytes(Unite(a[..4])), DecodeFull(a[4..]).data, ThreeBytes(Unite(q)));
      }
    }
  }

  /** The complete quantums. */
  method DecodeQuantums(src: seq<byte>, quantums: nat, lookup: array<int>, newstr: array<byte>) returns (ok: bool)
    requires 4 * quantums <= |src| && 3 * quantums <= newstr.Length && IsLookup(lookup)
    modifies newstr
    ensures ok == DecodeFull(src[..4 * quantums]).Ok?
    ensures ok ==> newstr[..3 * quantums] == DecodeFull(src[..4 * quantums]).data
  {
    hide Alphabet, Unite, Value, DecodeFull;
    var pos := 0;
    var i := 0;
    FullNothing();
    while i < quantums
      invariant 0 <= i <= quantums && pos == 3 * i
      invariant DecodeFull(src[..4 * i]) == Ok(newstr[..3 * i])
    {
      var good, x := ReadQuantum(src, 4 * i, lookup);
      FullSnoc(src[..4 * i], src[4 * i..4 * i + 4]);
      assert src[..4 * i] + src[4 * i..4 * i + 4] == src[..4 * (i + 1)];
      if !good {
        StaysBad(src[..4 * (i + 1)], src[4 * (i + 1)..4 * quantums]);
        assert src[..4 * (i + 1)] + src[4 * (i + 1)..4 * quantums] == src[..4 * quantums];
        return false;
      }
      ghost var before := newstr[..3 * i];
      PutThree(newstr, pos, x);
      assert newstr[..3 * (i + 1)] == before + ThreeBytes(x);
      pos := pos + 3;
      i := i + 1;
    }
    ok := true;
  }

  lemma FullNothing()
    ensures DecodeFull([]) == Ok([])
  {
  }

  lemma StaysBad(a: seq<byte>, b: seq<byte>)
    requires |a| % 4 == 0 && |b| % 4 == 0 && DecodeFull(a).BadContentEncoding?
    ensures DecodeFull(a + b).BadContentEncoding?
  {
    hide Alphabet, DecodeFull;
    FullIsTaken(a);
    FullIsTaken(a + b);
    AlphabetSplit(a, b);
  }

  method PutThree(newstr: array<byte>, pos: nat, x: nat)
    requires pos + 3 <= newstr.Length
    modifies newstr
    ensures newstr[..pos + 3] == old(newstr[..pos]) + ThreeBytes(x)
  {
    newstr[pos + 2] := ByteOf(x, 2);
    newstr[pos + 1] := ByteOf(x, 1);
    newstr[pos] := ByteOf(x, 0);
  }

  /** `Curl_base64_decode`; `newstr` has room for a terminating byte. */
  method Base64Decode(src: seq<byte>) returns (r: Result)
    ensures r == Decode(src)
  {
    hide DecodeFull, DecodePadded, Value, ByteOf;
    var srclen := |src|;
    if srclen == 0 || srclen % 4 != 0 {
      return BadContentEncoding;
    }
    var padding := 0;
    while src[srclen - 1 - padding] == PAD
      invariant 0 <= padding <= 2
      invariant (padding >= 1 ==> src[srclen - 1] == PAD) && (padding == 2 ==> src[srclen - 2] == PAD)
      decreases 2 - padding
    {
      padding := padding + 1;
      if padding > 2 {
        return BadContentEncoding;
      }
    }
    assert padding == Padding(src);
    DecodeParts(src);
    var numQuantums := srclen / 4;
    var fullQuantums := numQuantums - if padding != 0 then 1 else 0;
    var rawlen := numQuantums * 3 - padding;
    var newstr := new byte[rawlen + 1];
    var lookup := MakeLookup();
    assert src[..4 * fullQuantums] == if padding == 0 then src else src[..srclen - 4];
    var ok := DecodeQuantums(src, fullQuantums, lookup, newstr);
    if !ok {
      return BadContentEncoding;
    }
    if padding == 0 {
      return Ok(newstr[..rawlen]);
    }
    r := DecodeLast(src, padding, fullQuantums, lookup, newstr);
  }

  /** The padded quantum after the full ones. */
  method DecodeLast(src: seq<byte>, padding: nat, fullQuantums: nat, lookup: array<int>, newstr: array<byte>) returns (r: Result)
    requires 1 <= padding <= 2 && 4 * fullQuantums + 4 == |src| && IsLookup(lookup)
    requires newstr.Length == 3 * fullQuantums + 3 - padding + 1
    modifies newstr
    ensures r == Combine(Ok(old(newstr[..3 * fullQuantums])), DecodeEnd(src[4 * fullQuantums..], padding))
  {
    hide DecodePadded, ByteOf;
    var ok, x := ReadPadded(src, 4 * fullQuantums, padding, lookup);
    if !ok {
      return BadContentEncoding;
    }
    var pos := 3 * fullQuantums;
    if padding == 1 {
      newstr[pos + 1] := ByteOf(x, 1);
    }
    newstr[pos] := ByteOf(x, 0);
    pos := pos + 3 - padding;
    newstr[pos] := 0;
    r := Ok(newstr[..pos]);
  }

  // ---------- encoding ----------

  /** What is encoded: `insize` bytes, or for 0 a C string. */
  function Input(buffer: seq<byte>, insize: nat): seq<byte>
    requires insize <= |buffer|
  {
    if insize == 0 then UpToNul(buffer) else buffer[..insize]
  }

  function UpToNul(s: seq<byte>): seq<byte>
  {
    if s == [] || s[0] == 0 then [] else [s[0]] + UpToNul(s[1..])
  }

  /** The shifts and masks of three bytes are the digits of their group. */
  lemma ShiftsAreDigits(a: byte, b: byte, c: byte)
    ensures var x := Group(a, b, c);
            && x < 0x100_0000
            && Digit(x, 0) == a as nat / 4
            && Digit(x, 1) == a as nat % 4 * 16 + b as nat / 16
            && Digit(x, 2) == b as nat % 16 * 4 + c as nat / 64
            && Digit(x, 3) == c as nat % 64
  {
    hide Digit, Group, Four;
    GroupIsSmall(a, b, c);
    GroupAsFour(a, b, c);
    UpperDigits(a as nat / 4, a as nat % 4 * 16 + b as nat / 16, b as nat % 16 * 4 + c as nat / 64, c as nat % 64);
    LowerDigits(a as nat / 4, a as nat % 4 * 16 + b as nat / 16, b as nat % 16 * 4 + c as nat / 64, c as nat % 64);
  }

  lemma GroupAsFour(a: byte, b: byte, c: byte)
    ensures Group(a, b, c) ==
            Four(a as nat / 4, a as nat % 4 * 16 + b as nat / 16, b as nat % 16 * 4 + c as nat / 64, c as nat % 64)
  {
  }

  /** The loop over groups of three bytes, and the one or two bytes that may be left. */
  method Base64Encode(buffer: seq<byte>, size: nat) returns (output: seq<byte>)
    requires size <= |buffer| && (size == 0 ==> 0 in buffer)
    ensures output == Encode(Input(buffer, size))
    ensures |output| == (|Input(buffer, size)| + 2) / 3 * 4
  {
    hide Symbol, Digit, Group, Encode;
    var data := Input(buffer, size);
    EncodedLength(data);
    var base64data := new byte[(|data| + 2) / 3 * 4 + 1];
    var insize: nat, input: nat, pos: nat := |data|, 0, 0;
    assert data[0..] == data && base64data[..0] + Encode(data) == Encode(data);
    while insize >= 3
      invariant input + insize == |data| && pos == input / 3 * 4 && input % 3 == 0
      invariant base64data[..pos] + Encode(data[input..]) == Encode(data)
    {
      GroupEncodes(data[input..]);
      ghost var before := base64data[..pos];
      PutGroup(base64data, pos, data[input], data[input + 1], data[input + 2]);
      assert data[input..][3..] == data[input + 3..];
      Associate(before, Symbols(Group(data[input], data[input + 1], data[input + 2])), Encode(data[input + 3..]));
      pos := pos + 4;
      insize := insize - 3;
      input := input + 3;
    }
    EndEncodes(data[input..]);
    if insize > 0 {
      pos := PutEnd(base64data, pos, data[input..]);
    }
    base64data[pos] := 0;
    output := base64data[..pos];
    assert insize == 0 ==> output + [] == output;
  }

  lemma GroupEncodes(s: seq<byte>)
    requires |s| >= 3
    ensures Group(s[0], s[1], s[2]) < 0x100_0000
    ensures Encode(s) == Symbols(Group(s[0], s[1], s[2])) + Encode(s[3..])
  {
    hide Symbols;
    GroupIsSmall(s[0], s[1], s[2]);
  }

  lemma EndEncodes(s: seq<byte>)
    requires |s| < 3
    ensures Encode(s) == EncodeEnd(s)
  {
  }

  method PutGroup(output: array<byte>, pos: nat, a: byte, b: byte, c: byte)
    requires pos + 4 <= output.Length
    modifies output
    ensures Group(a, b, c) < 0x100_0000 && output[..pos + 4] == old(output[..pos]) + Symbols(Group(a, b, c))
  {
    hide Symbol, Digit, Group;
    ShiftsAreDigits(a, b, c);
    output[pos] := Symbol(a as nat / 4);
    output[pos + 1] := Symbol(a as nat % 4 * 16 + b as nat / 16);
    output[pos + 2] := Symbol(b as nat % 16 * 4 + c as nat / 64);
    output[pos + 3] := Symbol(c as nat % 64);
  }

  method PutEnd(output: array<byte>, pos: nat, rest: seq<byte>) returns (end: nat)
    requires pos + 4 <= output.Length && 1 <= |rest| <= 2
    modifies output
    ensures end == pos + 4 && output[..end] == old(output[..pos]) + EncodeEnd(rest)
  {
    hide Symbol, Digit, Group;
    output[pos] := Symbol(rest[0] as nat / 4);
    if |rest| == 1 {
      ShiftsAreDigits(rest[0], 0, 0);
      output[pos + 1] := Symbol(rest[0] as nat % 4 * 16);
      output[pos + 2] := PAD;
      output[pos + 3] := PAD;
    } else {
      ShiftsAreDigits(rest[0], rest[1], 0);
      output[pos + 1] := Symbol(rest[0] as nat % 4 * 16 + rest[1] as nat / 16);
      output[pos + 2] := Symbol(rest[1] as nat % 16 * 4);
      output[pos + 3] := PAD;
    }
    end := pos + 4;
  }
}
