/** Base64 (curl/lib/base64.c), section 4 of RFC 4648. */
module Base64 {
  import opened Bytes

  const PAD: byte := 61   // '='
  const BAD: nat := 255

  /** Value `k` in the alphabet of section 4 of RFC 4648. */
  function Symbol(k: nat): byte
    requires k < 64
  {
    if k < 26 then (65 + k) as byte
    else if k < 52 then (97 + (k - 26)) as byte
    else if k < 62 then (48 + (k - 52)) as byte
    else if k == 62 then 43 else 47
  }

  /** The value of a symbol, or `BAD`. */
  function Value(c: byte): nat
  {
    if 65 <= c <= 90 then c as nat - 65
    else if 97 <= c <= 122 then c as nat - 97 + 26
    else if 48 <= c <= 57 then c as nat - 48 + 52
    else if c == 43 then 62
    else if c == 47 then 63
    else BAD
  }

  lemma SymbolValue(k: nat)
    requires k < 64
    ensures Value(Symbol(k)) == k && Symbol(k) != PAD
  {
  }

  lemma ValueSymbol(c: byte)
    ensures Value(c) < 64 || Value(c) == BAD
    ensures Value(c) != BAD ==> Symbol(Value(c)) == c && c != PAD
  {
  }

  // ---------- encoding ----------

  /** `count` bytes as a 24-bit group, zeros for those that are missing. */
  function Group(a: byte, b: byte, c: byte): nat
  {
    a as nat * 65536 + b as nat * 256 + c as nat
  }

  /** Digit `i` of a 24-bit group, from the top. */
  function Digit(x: nat, i: nat): nat
    requires x < 0x100_0000 && i < 4
    ensures Digit(x, i) < 64
  {
    (if i == 0 then x / 262144 else if i == 1 then x / 4096 else if i == 2 then x / 64 else x) % 64
  }

  function Symbols(x: nat): seq<byte>
    requires x < 0x100_0000
  {
    [Symbol(Digit(x, 0)), Symbol(Digit(x, 1)), Symbol(Digit(x, 2)), Symbol(Digit(x, 3))]
  }

  /** What is left of at most two bytes at the end. */
  function EncodeEnd(data: seq<byte>): seq<byte>
    requires |data| < 3
  {
    if data == [] then []
    else if |data| == 1 then Symbols(Group(data[0], 0, 0))[..2] + [PAD, PAD]
    else Symbols(Group(data[0], data[1], 0))[..3] + [PAD]
  }

  /** The encoding: four symbols for three bytes, and a padded end. */
  function Encode(data: seq<byte>): seq<byte>
  {
    if |data| < 3 then EncodeEnd(data)
    else Symbols(Group(data[0], data[1], data[2])) + Encode(data[3..])
  }

  // ---------- decoding ----------

  datatype Result = Ok(data: seq<byte>) | BadContentEncoding

  predicate Alphabet(s: seq<byte>)
  {
    forall c :: c in s ==> Value(c) != BAD
  }

  /** The 24-bit group of four symbols. */
  function Unite(s: seq<byte>): nat
    requires |s| == 4
  {
    ((Value(s[0]) * 64 + Value(s[1])) * 64 + Value(s[2])) * 64 + Value(s[3])
  }

  function ByteOf(x: nat, i: nat): byte
    requires i < 3
  {
    ((if i == 0 then x / 65536 else if i == 1 then x / 256 else x) % 256) as byte
  }

  /** Whole quantums. */
  function DecodeFull(s: seq<byte>): Result
    requires |s| % 4 == 0
  {
    if s == [] then Ok([])
    else if !Alphabet(s[..4]) then BadContentEncoding
    else
      var x := Unite(s[..4]);
      var rest := DecodeFull(s[4..]);
      if rest.Ok? then Ok([ByteOf(x, 0), ByteOf(x, 1), ByteOf(x, 2)] + rest.data) else rest
  }

  /** How many `=` there are at the end, up to three. */
  function Padding(s: seq<byte>): nat
    requires |s| >= 4
  {
    if s[|s| - 1] != PAD then 0 else if s[|s| - 2] != PAD then 1 else if s[|s| - 3] != PAD then 2 else 3
  }

  /** The loop over the last, padded quantum: the group so far and the `=` seen so far. */
  function DecodePadded(s: seq<byte>, padding: nat, x: nat, padc: nat): (bool, nat)
    decreases |s|
  {
    if s == [] then (true, x)
    else if s[0] == PAD then if padc + 1 > padding then (false, 0) else DecodePadded(s[1..], padding, x * 64, padc + 1)
    else if Value(s[0]) == BAD then (false, 0)
    else DecodePadded(s[1..], padding, x * 64 + Value(s[0]), padc)
  }

  /** The last quantum, with one or two `=` at its end. */
  function DecodeEnd(s: seq<byte>, padding: nat): Result
    requires |s| == 4 && 1 <= padding <= 2
  {
    var (ok, x) := DecodePadded(s, padding, 0, 0);
    if !ok then BadContentEncoding
    else Ok(if padding == 1 then [ByteOf(x, 0), ByteOf(x, 1)] else [ByteOf(x, 0)])
  }

  /** `Curl_base64_decode`. */
  function Decode(s: seq<byte>): Result
  {
    if s == [] || |s| % 4 != 0 then BadContentEncoding else
    var padding := Padding(s);
    if padding > 2 then BadContentEncoding
    else if padding == 0 then DecodeFull(s)
    else
      var full := DecodeFull(s[..|s| - 4]);
      if full.BadContentEncoding? then full else
      var end := DecodeEnd(s[|s| - 4..], padding);
      if end.BadContentEncoding? then end else Ok(full.data + end.data)
  }

  // ---------- groups of bits ----------

  lemma GroupIsSmall(a: byte, b: byte, c: byte)
    ensures Group(a, b, c) < 0x100_0000
    ensures ByteOf(Group(a, b, c), 0) == a && ByteOf(Group(a, b, c), 1) == b && ByteOf(Group(a, b, c), 2) == c
  {
  }

  lemma DigitsUnite(x: nat)
    requires x < 0x100_0000
    ensures ((Digit(x, 0) * 64 + Digit(x, 1)) * 64 + Digit(x, 2)) * 64 + Digit(x, 3) == x
  {
  }

  lemma SymbolsUnite(x: nat)
    requires x < 0x100_0000
    ensures Alphabet(Symbols(x)) && Unite(Symbols(x)) == x
  {
    hide Symbol, Value, Digit;
    DigitsUnite(x);
    SymbolValue(Digit(x, 0));
    SymbolValue(Digit(x, 1));
    SymbolValue(Digit(x, 2));
    SymbolValue(Digit(x, 3));
  }

  function Four(a: nat, b: nat, c: nat, d: nat): nat
  {
    ((a * 64 + b) * 64 + c) * 64 + d
  }

  lemma UpperDigits(a: nat, b: nat, c: nat, d: nat)
    requires a < 64 && b < 64 && c < 64 && d < 64
    ensures Four(a, b, c, d) < 0x100_0000
    ensures Digit(Four(a, b, c, d), 0) == a && Digit(Four(a, b, c, d), 1) == b
  {
    var x := Four(a, b, c, d);
    assert x == a * 262144 + (b * 4096 + c * 64 + d) && x == (a * 64 + b) * 4096 + (c * 64 + d);
    assert x / 262144 == a;
    assert x / 4096 == a * 64 + b;
  }

  lemma LowerDigits(a: nat, b: nat, c: nat, d: nat)
    requires a < 64 && b < 64 && c < 64 && d < 64 && Four(a, b, c, d) < 0x100_0000
    ensures Digit(Four(a, b, c, d), 2) == c && Digit(Four(a, b, c, d), 3) == d
  {
    var x := Four(a, b, c, d);
    assert x / 64 == (a * 64 + b) * 64 + c;
  }

  lemma UniteIsSmall(s: seq<byte>)
    requires |s| == 4 && Alphabet(s)
    ensures Unite(s) < 0x100_0000
    ensures Digit(Unite(s), 0) == Value(s[0]) && Digit(Unite(s), 1) == Value(s[1])
    ensures Digit(Unite(s), 2) == Value(s[2]) && Digit(Unite(s), 3) == Value(s[3])
  {
    hide Value, Digit;
    assert s[0] in s && s[1] in s && s[2] in s && s[3] in s;
    ValueSymbol(s[0]);
    ValueSymbol(s[1]);
    ValueSymbol(s[2]);
    ValueSymbol(s[3]);
    UpperDigits(Value(s[0]), Value(s[1]), Value(s[2]), Value(s[3]));
    LowerDigits(Value(s[0]), Value(s[1]), Value(s[2]), Value(s[3]));
  }

  lemma UniteSymbols(s: seq<byte>)
    requires |s| == 4 && Alphabet(s)
    ensures Unite(s) < 0x100_0000 && Symbols(Unite(s)) == s
  {
    hide Value, Symbol, Digit, Unite;
    UniteIsSmall(s);
    assert s[0] in s && s[1] in s && s[2] in s && s[3] in s;
    ValueSymbol(s[0]);
    ValueSymbol(s[1]);
    ValueSymbol(s[2]);
    ValueSymbol(s[3]);
  }

  lemma BytesGroup(x: nat)
    requires x < 0x100_0000
    ensures Group(ByteOf(x, 0), ByteOf(x, 1), ByteOf(x, 2)) == x
  {
    var high := x / 256;
    assert x / 65536 == high / 256;
    assert x == high * 256 + x % 256 && high == high / 256 * 256 + high % 256;
  }

  // ---------- the last quantum ----------

  lemma PaddedStep(s: seq<byte>, padding: nat, x: nat, padc: nat)
    requires s != []
    ensures DecodePadded(s, padding, x, padc) ==
            if s[0] == PAD then if padc + 1 > padding then (false, 0) else DecodePadded(s[1..], padding, x * 64, padc + 1)
            else if Value(s[0]) == BAD then (false, 0)
            else DecodePadded(s[1..], padding, x * 64 + Value(s[0]), padc)
  {
  }

  lemma PaddedNothing(padding: nat, x: nat, padc: nat)
    ensures DecodePadded([], padding, x, padc) == (true, x)
  {
  }

  /** The value of a symbol that may be padding. */
  function PadValue(c: byte): nat
  {
    if c == PAD then 0 else Value(c)
  }

  /** The last quantum is taken when what is in front of its padding is in the alphabet. */
  lemma EndIsTaken(s: seq<byte>, padding: nat)
    requires |s| == 4 && 1 <= padding <= 2 && s[3] == PAD && (padding == 2 <==> s[2] == PAD)
    ensures var ok := Value(s[0]) != BAD && Value(s[1]) != BAD && (padding == 1 ==> Value(s[2]) != BAD);
            && DecodePadded(s, padding, 0, 0).0 == ok
            && (ok ==> DecodePadded(s, padding, 0, 0).1 == Four(Value(s[0]), Value(s[1]), PadValue(s[2]), 0))
  {
    hide DecodePadded, Value;
    var s1, s2, s3 := s[1..], s[2..], s[3..];
    assert s1[1..] == s2 && s2[1..] == s3 && s3[1..] == [];
    PadHasNoValue();
    PaddedStep(s, padding, 0, 0);
    if s[0] != PAD && Value(s[0]) != BAD {
      var x0 := Value(s[0]);
      PaddedStep(s1, padding, x0, 0);
      if s[1] != PAD && Value(s[1]) != BAD {
        PaddedStep(s2, padding, x0 * 64 + Value(s[1]), 0);
        TwoLeft(s2, padding, x0 * 64 + Value(s[1]), 0);
      } else if s[1] == PAD {
        TwoLeftOver(s2, padding, x0 * 64, 1);
      }
    } else if s[0] == PAD {
      ThreeLeftOver(s1, padding, 0, 1);
    }
  }

  lemma PadHasNoValue()
    ensures Value(PAD) == BAD
  {
  }

  lemma TwoLeft(s: seq<byte>, padding: nat, x: nat, padc: nat)
    requires |s| == 2 && 1 <= padding <= 2 && s[1] == PAD && (padding == 2 <==> s[0] == PAD) && padc == 0
    ensures var ok := padding == 1 ==> Value(s[0]) != BAD;
            && DecodePadded(s, padding, x, padc).0 == ok
            && (ok ==> DecodePadded(s, padding, x, padc).1 == (x * 64 + PadValue(s[0])) * 64)
  {
    hide DecodePadded, Value;
    assert s[1..][1..] == [];
    PaddedStep(s, padding, x, padc);
    if s[0] == PAD {
      PaddedStep(s[1..], padding, x * 64, 1);
      PaddedNothing(padding, x * 64 * 64, 2);
    } else if Value(s[0]) != BAD {
      PaddedStep(s[1..], padding, x * 64 + Value(s[0]), 0);
      PaddedNothing(padding, (x * 64 + Value(s[0])) * 64, 1);
    }
  }

  /** One `=` too many before the end. */
  lemma TwoLeftOver(s: seq<byte>, padding: nat, x: nat, padc: nat)
    requires |s| == 2 && 1 <= padding <= 2 && s[1] == PAD && (padding == 2 <==> s[0] == PAD) && padc >= 1
    ensures !DecodePadded(s, padding, x, padc).0
  {
    hide Value;
    PaddedStep(s, padding, x, padc);
    if s[0] == PAD {
      if padc + 1 <= padding {
        PaddedStep(s[1..], padding, x * 64, padc + 1);
      }
    } else if Value(s[0]) != BAD {
      PaddedStep(s[1..], padding, x * 64 + Value(s[0]), padc);
    }
  }

  lemma ThreeLeftOver(s: seq<byte>, padding: nat, x: nat, padc: nat)
    requires |s| == 3 && 1 <= padding <= 2 && s[2] == PAD && (padding == 2 <==> s[1] == PAD) && padc >= 1
    ensures !DecodePadded(s, padding, x, padc).0
  {
    hide Value, DecodePadded;
    PaddedStep(s, padding, x, padc);
    if s[0] == PAD {
      if padc + 1 <= padding {
        TwoLeftOver(s[1..], padding, x * 64, padc + 1);
      }
    } else if Value(s[0]) != BAD {
      TwoLeftOver(s[1..], padding, x * 64 + Value(s[0]), padc);
    }
  }

  // ---------- what is accepted ----------

  lemma AlphabetSplit(a: seq<byte>, b: seq<byte>)
    ensures Alphabet(a + b) <==> Alphabet(a) && Alphabet(b)
  {
    hide Value;
    assert forall c :: c in a || c in b <==> c in a + b;
  }

  lemma {:induction false} FullIsTaken(s: seq<byte>)
    requires |s| % 4 == 0
    ensures DecodeFull(s).Ok? <==> Alphabet(s)
    ensures DecodeFull(s).Ok? ==> |DecodeFull(s).data| == |s| / 4 * 3
    decreases |s|
  {
    hide Alphabet, Unite, ByteOf;
    if s == [] {
      EmptyAlphabet();
    } else {
      assert s == s[..4] + s[4..];
      AlphabetSplit(s[..4], s[4..]);
      FullIsTaken(s[4..]);
    }
  }

  lemma EmptyAlphabet()
    ensures Alphabet([])
  {
  }

  /** Symbols of the alphabet with up to two `=` at the very end, whole quantums of them. */
  ghost predicate Base64Text(s: seq<byte>, padding: nat)
  {
    && s != [] && |s| % 4 == 0 && padding <= 2
    && Alphabet(s[..|s| - padding])
    && forall i :: |s| - padding <= i < |s| ==> s[i] == PAD
  }

  lemma PaddingIs(s: seq<byte>, padding: nat)
    requires |s| >= 4 && padding <= 2 && Alphabet(s[..|s| - padding])
    requires forall i :: |s| - padding <= i < |s| ==> s[i] == PAD
    ensures Padding(s) == padding
  {
    PadHasNoValue();
    assert forall i :: 0 <= i < |s| - padding ==> s[i] in s[..|s| - padding];
  }

  /** Accepted is exactly the base64 text, and its length gives the length of the data. */
  lemma AcceptsExactlyBase64(s: seq<byte>)
    ensures Decode(s).Ok? <==> exists padding :: Base64Text(s, padding)
    ensures Decode(s).Ok? ==> |Decode(s).data| == |s| / 4 * 3 - Padding(s)
  {
    hide Alphabet, DecodeFull, DecodeEnd;
    if s != [] && |s| % 4 == 0 {
      var p := Padding(s);
      if p == 0 {
        FullIsTaken(s);
        assert s[..|s| - 0] == s;
        assert Alphabet(s) ==> Base64Text(s, 0);
      } else if p <= 2 {
        PaddedIsTaken(s);
        assert Alphabet(s[..|s| - p]) ==> Base64Text(s, p);
      }
      if padding :| Base64Text(s, padding) {
        PaddingIs(s, padding);
      }
    }
  }

  lemma PaddedIsTaken(s: seq<byte>)
    requires s != [] && |s| % 4 == 0 && 1 <= Padding(s) <= 2
    ensures Decode(s).Ok? <==> Alphabet(s[..|s| - Padding(s)])
    ensures Decode(s).Ok? ==> |Decode(s).data| == |s| / 4 * 3 - Padding(s)
  {
    hide Alphabet, DecodeFull, DecodePadded, Value;
    var p, front, end := Padding(s), s[..|s| - 4], s[|s| - 4..];
    FullIsTaken(front);
    EndIsTaken(end, p);
    assert s[..|s| - p] == front + end[..4 - p];
    AlphabetSplit(front, end[..4 - p]);
    EndAlphabet(end, p);
  }

  lemma EndAlphabet(s: seq<byte>, padding: nat)
    requires |s| == 4 && 1 <= padding <= 2
    ensures Alphabet(s[..4 - padding]) <==> Value(s[0]) != BAD && Value(s[1]) != BAD && (padding == 1 ==> Value(s[2]) != BAD)
  {
    hide Value;
    var t := s[..4 - padding];
    assert t[0] == s[0] && t[1] == s[1] && (padding == 1 ==> t[2] == s[2]);
    assert s[0] in t && s[1] in t && (padding == 1 ==> s[2] in t);
  }

  // ---------- round trips ----------

  lemma PeelSlices(q: seq<byte>, rest: seq<byte>)
    requires |q| == 4 && |rest| >= 4
    ensures var s := q + rest;
            Padding(s) == Padding(rest) && s[..|s| - 4] == q + rest[..|rest| - 4] && s[|s| - 4..] == rest[|rest| - 4..]
  {
  }

  /** `Decode` in terms of its two parts. */
  function Combine(full: Result, end: Result): Result
  {
    if full.BadContentEncoding? then full else if end.BadContentEncoding? then end else Ok(full.data + end.data)
  }

  lemma DecodeParts(s: seq<byte>)
    requires s != [] && |s| % 4 == 0
    ensures Padding(s) > 2 ==> Decode(s) == BadContentEncoding
    ensures Padding(s) == 0 ==> Decode(s) == DecodeFull(s)
    ensures 1 <= Padding(s) <= 2 ==> Decode(s) == Combine(DecodeFull(s[..|s| - 4]), DecodeEnd(s[|s| - 4..], Padding(s)))
  {
    hide DecodeFull, DecodeEnd, Padding;
  }

  /** The first quantum of a longer text is decoded apart from the rest. */
  lemma Peel(q: seq<byte>, rest: seq<byte>)
    requires |q| == 4 && Alphabet(q) && rest != [] && |rest| % 4 == 0
    ensures var x := Unite(q);
            Decode(q + rest) == if Decode(rest).Ok? then Ok([ByteOf(x, 0), ByteOf(x, 1), ByteOf(x, 2)] + Decode(rest).data)
                                else BadContentEncoding
  {
    hide Alphabet, Unite, ByteOf, DecodeEnd, DecodeFull, Decode, Padding;
    var x := Unite(q);
    var bytes := [ByteOf(x, 0), ByteOf(x, 1), ByteOf(x, 2)];
    PeelSlices(q, rest);
    DecodeParts(q + rest);
    DecodeParts(rest);
    if Padding(rest) == 0 {
      PeelFull(q, rest);
    } else if Padding(rest) <= 2 {
      PeelFull(q, rest[..|rest| - 4]);
      CombineAfter(bytes, DecodeFull(rest[..|rest| - 4]), DecodeEnd(rest[|rest| - 4..], Padding(rest)));
    }
  }

  lemma CombineAfter(bytes: seq<byte>, full: Result, end: Result)
    ensures Combine(if full.Ok? then Ok(bytes + full.data) else BadContentEncoding, end)
            == if Combine(full, end).Ok? then Ok(bytes + Combine(full, end).data) else BadContentEncoding
  {
    if full.Ok? && end.Ok? {
      Associate(bytes, full.data, end.data);
    }
  }

  lemma Associate(a: seq<byte>, b: seq<byte>, c: seq<byte>)
    ensures a + b + c == a + (b + c)
  {
  }

  lemma PeelFull(q: seq<byte>, rest: seq<byte>)
    requires |q| == 4 && Alphabet(q) && |rest| % 4 == 0
    ensures var x := Unite(q);
            DecodeFull(q + rest) == if DecodeFull(rest).Ok?
                                    then Ok([ByteOf(x, 0), ByteOf(x, 1), ByteOf(x, 2)] + DecodeFull(rest).data)
                                    else BadContentEncoding
  {
    hide Alphabet, Unite, ByteOf;
    var s := q + rest;
    assert s[..4] == q && s[4..] == rest;
  }

  lemma OneQuantum(q: seq<byte>)
    requires |q| == 4 && Alphabet(q)
    ensures var x := Unite(q); Decode(q) == Ok([ByteOf(x, 0), ByteOf(x, 1), ByteOf(x, 2)])
  {
    hide Alphabet, Unite, ByteOf, DecodeEnd;
    LastIsNotPad(q);
    PeelFull(q, []);
    assert q + [] == q;
  }

  lemma LastIsNotPad(q: seq<byte>)
    requires |q| == 4 && Alphabet(q)
    ensures Padding(q) == 0
  {
    hide Value;
    PadHasNoValue();
    assert q[3] in q;
  }

  /** A last quantum alone. */
  lemma OneEnd(s: seq<byte>)
    requires |s| == 4 && 1 <= Padding(s) <= 2
    ensures Decode(s) == DecodeEnd(s, Padding(s))
  {
    hide DecodeEnd;
    assert s[..0] == [] && s[0..] == s;
    var end := DecodeEnd(s, Padding(s));
    assert end.Ok? ==> [] + end.data == end.data;
  }

  lemma {:induction false} EncodedLength(data: seq<byte>)
    ensures |Encode(data)| == (|data| + 2) / 3 * 4
    decreases |data|
  {
    hide Symbol, Digit, Group;
    if |data| >= 3 {
      GroupIsSmall(data[0], data[1], data[2]);
      EncodedLength(data[3..]);
    }
  }

  lemma OneByteBack(a: byte)
    ensures Decode(EncodeEnd([a])) == Ok([a])
  {
    hide Symbol, Value, DecodePadded, Group, Digit, ByteOf, Decode;
    var x := Group(a, 0, 0);
    GroupIsSmall(a, 0, 0);
    var s := EncodeEnd([a]);
    SymbolValue(Digit(x, 0));
    SymbolValue(Digit(x, 1));
    assert s == [Symbol(Digit(x, 0)), Symbol(Digit(x, 1)), PAD, PAD];
    OneEnd(s);
    EndIsTaken(s, 2);
    GroupEnds(a, 0);
    EndUnites(x, 2);
  }

  lemma TwoBytesBack(a: byte, b: byte)
    ensures Decode(EncodeEnd([a, b])) == Ok([a, b])
  {
    hide Symbol, Value, DecodePadded, Group, Digit, ByteOf, Decode;
    var x := Group(a, b, 0);
    GroupIsSmall(a, b, 0);
    var s := EncodeEnd([a, b]);
    SymbolValue(Digit(x, 0));
    SymbolValue(Digit(x, 1));
    SymbolValue(Digit(x, 2));
    assert s == [Symbol(Digit(x, 0)), Symbol(Digit(x, 1)), Symbol(Digit(x, 2)), PAD];
    OneEnd(s);
    EndIsTaken(s, 1);
    GroupEnds(a, b);
    EndUnites(x, 1);
  }

  lemma GroupEnds(a: byte, b: byte)
    ensures Group(a, b, 0) % 256 == 0 && Group(a, 0, 0) % 65536 == 0
  {
  }

  lemma ZeroDigits(x: nat)
    requires x < 0x100_0000
    ensures x % 256 == 0 ==> Digit(x, 3) == 0
    ensures x % 65536 == 0 ==> Digit(x, 2) == 0 && Digit(x, 3) == 0
  {
    if x % 65536 == 0 {
      var k := x / 65536;
      assert x == 65536 * k && x / 64 == 1024 * k;
    }
  }

  /** The low digits that a short end leaves out were zero bits. */
  lemma EndUnites(x: nat, padding: nat)
    requires x < 0x100_0000 && 1 <= padding <= 2
    requires x % 256 == 0 && (padding == 2 ==> x % 65536 == 0)
    ensures Four(Digit(x, 0), Digit(x, 1), if padding == 2 then 0 else Digit(x, 2), 0) == x
  {
    hide Digit;
    DigitsUnite(x);
    ZeroDigits(x);
  }

  /** Decoding undoes encoding. */
  lemma {:induction false} RoundTrip(data: seq<byte>)
    requires data != []
    ensures Decode(Encode(data)) == Ok(data)
    decreases |data|
  {
    hide Decode, Symbols, Group, Unite, ByteOf, Alphabet;
    if |data| < 3 {
      EndBack(data);
    } else {
      var x := Group(data[0], data[1], data[2]);
      GroupIsSmall(data[0], data[1], data[2]);
      SymbolsUnite(x);
      var rest := Encode(data[3..]);
      FourSymbols(x);
      assert data == [data[0], data[1], data[2]] + data[3..];
      if |data| == 3 {
        OneQuantum(Symbols(x));
        assert Symbols(x) + rest == Symbols(x);
      } else {
        EncodedLength(data[3..]);
        Peel(Symbols(x), rest);
        RoundTrip(data[3..]);
      }
    }
  }

  lemma FourSymbols(x: nat)
    requires x < 0x100_0000
    ensures |Symbols(x)| == 4
  {
  }

  lemma EndBack(data: seq<byte>)
    requires 0 < |data| < 3
    ensures Decode(Encode(data)) == Ok(data)
  {
    hide Decode, EncodeEnd;
    if |data| == 1 {
      OneByteBack(data[0]);
      assert data == [data[0]];
    } else {
      TwoBytesBack(data[0], data[1]);
      assert data == [data[0], data[1]];
    }
  }

  // ---------- the other way ----------

  /** The bits of the last symbol that are not part of the data. */
  predicate UnusedBitsZero(s: seq<byte>)
    requires |s| >= 4
  {
    && (Padding(s) == 1 ==> Value(s[|s| - 2]) % 4 == 0)
    && (Padding(s) == 2 ==> Value(s[|s| - 3]) % 16 == 0)
  }

  lemma EncodeThree(a: byte, b: byte, c: byte, rest: seq<byte>)
    requires Group(a, b, c) < 0x100_0000
    ensures Encode([a, b, c] + rest) == Symbols(Group(a, b, c)) + Encode(rest)
  {
    hide Symbols, Group;
    assert ([a, b, c] + rest)[3..] == rest;
  }

  lemma SymbolIsInjective(j: nat, k: nat)
    requires j < 64 && k < 64
    ensures Symbol(j) == Symbol(k) <==> j == k
  {
    SymbolValue(j);
    SymbolValue(k);
  }

  lemma EncodeTwo(a: byte, b: byte, d0: nat, d1: nat, d2: nat)
    requires d0 < 64 && d1 < 64 && d2 < 64 && Four(d0, d1, d2, 0) < 0x100_0000 && Group(a, b, 0) == Four(d0, d1, d2, 0)
    ensures Encode([a, b]) == [Symbol(d0), Symbol(d1), Symbol(d2), PAD]
  {
    hide Symbol, Digit, Group, Four;
    UpperDigits(d0, d1, d2, 0);
    LowerDigits(d0, d1, d2, 0);
  }

  lemma EncodeOne(a: byte, d0: nat, d1: nat)
    requires d0 < 64 && d1 < 64 && Four(d0, d1, 0, 0) < 0x100_0000 && Group(a, 0, 0) == Four(d0, d1, 0, 0)
    ensures Encode([a]) == [Symbol(d0), Symbol(d1), PAD, PAD]
  {
    hide Symbol, Digit, Group, Four;
    UpperDigits(d0, d1, 0, 0);
  }

  lemma TopBytes(x: nat)
    requires x < 0x100_0000
    ensures Group(ByteOf(x, 0), ByteOf(x, 1), 0) == x / 256 * 256
  {
    BytesGroup(x);
    LastByte(x);
    hide ByteOf;
  }

  lemma LastByte(x: nat)
    ensures ByteOf(x, 2) as nat == x % 256
  {
  }

  /** The bytes of an end, as a group again: the unused bits are gone. */
  lemma TwoBytesOf(v0: nat, v1: nat, v2: nat)
    requires v0 < 64 && v1 < 64 && v2 < 64
    ensures var x := Four(v0, v1, v2, 0); Group(ByteOf(x, 0), ByteOf(x, 1), 0) == Four(v0, v1, v2 / 4 * 4, 0)
  {
    hide Group, ByteOf;
    var x := Four(v0, v1, v2, 0);
    var k, e := (v0 * 64 + v1) * 16 + v2 / 4, v2 % 4 * 64;
    assert x == k * 256 + e && e < 256;
    TopBytes(x);
    assert x / 256 == k;
  }

  lemma OneByteOf(v0: nat, v1: nat)
    requires v0 < 64 && v1 < 64
    ensures var x := Four(v0, v1, 0, 0); Group(ByteOf(x, 0), 0, 0) == Four(v0, v1 / 16 * 16, 0, 0)
  {
    var x := Four(v0, v1, 0, 0);
    assert x == (v0 * 4 + v1 / 16) * 65536 + v1 % 16 * 4096;
    assert x / 65536 == v0 * 4 + v1 / 16;
  }

  lemma TwoByteEnd(s: seq<byte>)
    requires |s| == 4 && Padding(s) == 1 && Decode(s).Ok?
    ensures Encode(Decode(s).data) == s <==> Value(s[2]) % 4 == 0
  {
    hide Decode, DecodePadded, Symbol, Value, ByteOf, Group, Four, Encode;
    OneEnd(s);
    EndIsTaken(s, 1);
    var v0, v1, v2 := Value(s[0]), Value(s[1]), Value(s[2]);
    ValueSymbol(s[0]);
    ValueSymbol(s[1]);
    ValueSymbol(s[2]);
    var w := v2 / 4 * 4;
    UpperDigits(v0, v1, w, 0);
    var x := Four(v0, v1, v2, 0);
    TwoBytesOf(v0, v1, v2);
    EncodeTwo(ByteOf(x, 0), ByteOf(x, 1), v0, v1, w);
    SymbolIsInjective(w, v2);
    assert s == [s[0], s[1], s[2], s[3]];
  }

  lemma OneByteEnd(s: seq<byte>)
    requires |s| == 4 && Padding(s) == 2 && Decode(s).Ok?
    ensures Encode(Decode(s).data) == s <==> Value(s[1]) % 16 == 0
  {
    hide Decode, DecodePadded, Symbol, Value, ByteOf, Group, Four, Encode;
    OneEnd(s);
    EndIsTaken(s, 2);
    var v0, v1 := Value(s[0]), Value(s[1]);
    ValueSymbol(s[0]);
    ValueSymbol(s[1]);
    var w := v1 / 16 * 16;
    UpperDigits(v0, w, 0, 0);
    var x := Four(v0, v1, 0, 0);
    OneByteOf(v0, v1);
    EncodeOne(ByteOf(x, 0), v0, w);
    SymbolIsInjective(w, v1);
    assert s == [s[0], s[1], s[2], s[3]];
  }

  /** Encoding undoes decoding exactly when the unused bits of the last symbol are zero. */
  lemma {:induction false} EncodesBack(s: seq<byte>)
    requires Decode(s).Ok?
    ensures Encode(Decode(s).data) == s <==> UnusedBitsZero(s)
    decreases |s|
  {
    hide Decode, Value, Encode, Symbols, Group, Unite, ByteOf, Alphabet;
    DecodedIsLong(s);
    AcceptsExactlyBase64(s);
    var padding :| Base64Text(s, padding);
    PaddingIs(s, padding);
    if |s| == 4 {
      if padding == 0 {
        WholeEnd(s);
      } else if padding == 1 {
        TwoByteEnd(s);
      } else {
        OneByteEnd(s);
      }
    } else {
      var q, rest := s[..4], s[4..];
      assert s == q + rest;
      var front := s[4..|s| - padding];
      assert s[..|s| - padding] == q + front;
      AlphabetSplit(q, front);
      Peel(q, rest);
      UniteSymbols(q);
      var x := Unite(q);
      BytesGroup(x);
      EncodeThree(ByteOf(x, 0), ByteOf(x, 1), ByteOf(x, 2), Decode(rest).data);
      EncodesBack(rest);
      SamePart(q, Encode(Decode(rest).data), rest);
    }
  }

  lemma SamePart(q: seq<byte>, a: seq<byte>, b: seq<byte>)
    ensures q + a == q + b <==> a == b
  {
    if q + a == q + b {
      assert a == (q + a)[|q|..] && b == (q + b)[|q|..];
    }
  }

  lemma DecodedIsLong(s: seq<byte>)
    requires Decode(s).Ok?
    ensures |s| >= 4
  {
    hide DecodeFull, DecodeEnd;
  }

  lemma WholeEnd(s: seq<byte>)
    requires |s| == 4 && Base64Text(s, 0)
    ensures Decode(s).Ok? && Encode(Decode(s).data) == s
  {
    hide Decode, Value, Symbols, Group, Unite, ByteOf, Alphabet, Encode;
    assert s[..4 - 0] == s;
    OneQuantum(s);
    var x := Unite(s);
    UniteSymbols(s);
    BytesGroup(x);
    EncodeThree(ByteOf(x, 0), ByteOf(x, 1), ByteOf(x, 2), []);
    NothingEncoded();
    assert [ByteOf(x, 0), ByteOf(x, 1), ByteOf(x, 2)] + [] == [ByteOf(x, 0), ByteOf(x, 1), ByteOf(x, 2)];
    assert s + [] == s;
  }

  lemma NothingEncoded()
    ensures Encode([]) == []
  {
  }
}
