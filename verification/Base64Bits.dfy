/** Base64 (curl/lib/base64.c) letter by letter and bit by bit, against the alphabet of section 4 of RFC 4648 written
    out: the independent reading of the encoder and the decoder. */
module Base64Bits {
  import opened Bytes
  import opened Base64

  const CAPITALS: string := "ABCDEFGHIJKLMNOPQRSTUVWXYZ"
  const SMALLS: string := "abcdefghijklmnopqrstuvwxyz"
  const OTHERS: string := "0123456789+/"

  /** `c` is letter number `k` of the alphabet. */
  predicate Is(c: byte, k: int)
  {
    0 <= k < 64 && c as char == (CAPITALS + SMALLS + OTHERS)[k]
  }

  lemma CapitalIs(k: nat)
    requires k < 26
    ensures CAPITALS[k] as int == 65 + k
  {
  }

  lemma SmallIs(k: nat)
    requires k < 26
    ensures SMALLS[k] as int == 97 + k
  {
  }

  lemma SymbolIs(k: nat)
    requires k < 64
    ensures Is(Symbol(k), k)
  {
    if k < 26 {
      CapitalIs(k);
    } else if k < 52 {
      SmallIs(k - 26);
    }
  }

  lemma InAlphabet(c: byte, k: nat)
    requires Is(c, k)
    ensures k < 64
  {
  }

  lemma ValueIs(c: byte, k: nat)
    requires Is(c, k)
    ensures k < 64 && Value(c) == k && c != '=' as byte
  {
    hide Is, Symbol, Value;
    InAlphabet(c, k);
    SymbolIs(k);
    SymbolValue(k);
    SameLetter(c, Symbol(k), k);
  }

  lemma SameLetter(c: byte, d: byte, k: nat)
    requires Is(c, k) && Is(d, k)
    ensures c == d
  {
    hide CAPITALS, SMALLS, OTHERS;
  }

  ghost predicate IsLetter(c: byte)
  {
    exists k: nat :: Is(c, k)
  }

  lemma LetterHasValue(c: byte)
    ensures Value(c) != BAD <==> IsLetter(c)
  {
    hide Is, Value, Symbol;
    ValueSymbol(c);
    if Value(c) != BAD {
      SymbolIs(Value(c));
    }
    if k: nat :| Is(c, k) {
      ValueIs(c, k);
    }
  }

  // ---------- encoding ----------

  lemma GroupDigits(a: byte, b: byte, c: byte)
    ensures var x := Group(a, b, c);
            && x < 0x100_0000
            && Digit(x, 0) == a as nat / 4 && Digit(x, 1) == a as nat % 4 * 16 + b as nat / 16
            && Digit(x, 2) == b as nat % 16 * 4 + c as nat / 64 && Digit(x, 3) == c as nat % 64
  {
    hide Digit;
    var k0, k1 := a as nat / 4, a as nat % 4 * 16 + b as nat / 16;
    var k2, k3 := b as nat % 16 * 4 + c as nat / 64, c as nat % 64;
    GroupIsSmall(a, b, c);
    assert Group(a, b, c) == Four(k0, k1, k2, k3);
    UpperDigits(k0, k1, k2, k3);
    LowerDigits(k0, k1, k2, k3);
  }

  lemma FirstLetters(data: seq<byte>)
    requires data != []
    ensures |Encode(data)| >= 4
    ensures var t, n := Encode(data), |data|;
            var a := data[0] as nat;
            var b := if n > 1 then data[1] as nat else 0;
            var c := if n > 2 then data[2] as nat else 0;
            && Is(t[0], a / 4) && Is(t[1], a % 4 * 16 + b / 16)
            && (if n > 1 then Is(t[2], b % 16 * 4 + c / 64) else t[2] == '=' as byte)
            && (if n > 2 then Is(t[3], c % 64) else t[3] == '=' as byte)
  {
    hide Is, Encode, Symbol, Digit, Group;
    EncodedLength(data);
    var b := if |data| > 1 then data[1] else 0;
    var c := if |data| > 2 then data[2] else 0;
    GroupDigits(data[0], b, c);
    FirstSymbols(data, b, c);
    var x := Group(data[0], b, c);
    SymbolIs(Digit(x, 0));
    SymbolIs(Digit(x, 1));
    SymbolIs(Digit(x, 2));
    SymbolIs(Digit(x, 3));
  }

  lemma FirstSymbols(data: seq<byte>, b: byte, c: byte)
    requires data != [] && b == (if |data| > 1 then data[1] else 0) && c == if |data| > 2 then data[2] else 0
    requires Group(data[0], b, c) < 0x100_0000
    ensures |Encode(data)| >= 4
    ensures var t, x := Encode(data), Group(data[0], b, c);
            && t[0] == Symbol(Digit(x, 0)) && t[1] == Symbol(Digit(x, 1))
            && t[2] == (if |data| > 1 then Symbol(Digit(x, 2)) else '=' as byte)
            && t[3] == if |data| > 2 then Symbol(Digit(x, 3)) else '=' as byte
  {
    hide Symbol, Digit, Group;
  }

  lemma LaterLetters(data: seq<byte>)
    requires |data| >= 3
    ensures |Encode(data)| >= 4 && Encode(data)[4..] == Encode(data[3..])
  {
    hide Symbol, Digit, Group;
    GroupIsSmall(data[0], data[1], data[2]);
  }

  /** The four letters that stand for the bytes from 3q on; missing bits are zero, missing letters `=`. */
  lemma {:induction false} EncodesBits(data: seq<byte>, q: nat)
    requires 3 * q < |data|
    ensures |Encode(data)| == (|data| + 2) / 3 * 4
    ensures var t, i, n := Encode(data), 4 * q, |data| - 3 * q;
            var a := data[3 * q] as nat;
            var b := if n > 1 then data[3 * q + 1] as nat else 0;
            var c := if n > 2 then data[3 * q + 2] as nat else 0;
            && Is(t[i], a / 4) && Is(t[i + 1], a % 4 * 16 + b / 16)
            && (if n > 1 then Is(t[i + 2], b % 16 * 4 + c / 64) else t[i + 2] == '=' as byte)
            && (if n > 2 then Is(t[i + 3], c % 64) else t[i + 3] == '=' as byte)
    decreases q
  {
    hide Is, Encode;
    EncodedLength(data);
    if q == 0 {
      FirstLetters(data);
    } else {
      LaterLetters(data);
      EncodesBits(data[3..], q - 1);
    }
  }

  // ---------- decoding ----------

  lemma FourBytes(k0: nat, k1: nat, k2: nat, k3: nat)
    requires k0 < 64 && k1 < 64 && k2 < 64 && k3 < 64
    ensures var x := Four(k0, k1, k2, k3);
            && ByteOf(x, 0) as nat == k0 * 4 + k1 / 16
            && ByteOf(x, 1) as nat == k1 % 16 * 16 + k2 / 4
            && ByteOf(x, 2) as nat == k2 % 4 * 64 + k3
  {
    var x := Four(k0, k1, k2, k3);
    var a, b, c := k0 * 4 + k1 / 16, k1 % 16 * 16 + k2 / 4, k2 % 4 * 64 + k3;
    assert x == a * 65536 + b * 256 + c;
    assert x / 256 == a * 256 + b;
    assert x / 65536 == a;
  }

  lemma FirstAreLetters(s: seq<byte>)
    requires Decode(s).Ok? && |s| > 4
    ensures Alphabet(s[..4]) && |s| % 4 == 0
  {
    hide Decode, Alphabet;
    AcceptsExactlyBase64(s);
    var p :| Base64Text(s, p);
    assert s[..|s| - p] == s[..4] + s[4..|s| - p];
    AlphabetSplit(s[..4], s[4..|s| - p]);
  }

  lemma UniteIs(s: seq<byte>, k0: nat, k1: nat, k2: nat, k3: nat)
    requires |s| == 4 && Is(s[0], k0) && Is(s[1], k1) && Is(s[2], k2) && Is(s[3], k3)
    ensures k0 < 64 && k1 < 64 && k2 < 64 && k3 < 64
    ensures Alphabet(s) && Unite(s) == Four(k0, k1, k2, k3)
  {
    hide Is, Value;
    ValueIs(s[0], k0);
    ValueIs(s[1], k1);
    ValueIs(s[2], k2);
    ValueIs(s[3], k3);
    assert forall c :: c in s ==> c == s[0] || c == s[1] || c == s[2] || c == s[3];
  }

  lemma LettersOnly(s: seq<byte>)
    requires |s| == 4 && Alphabet(s)
    ensures s[2] != '=' as byte && s[3] != '=' as byte
  {
    hide Value;
    PadHasNoValue();
    assert s[2] in s && s[3] in s;
  }

  /** A quantum that is the whole text. */
  lemma OnlyQuantum(s: seq<byte>, k0: nat, k1: nat, k2: nat, k3: nat)
    requires Decode(s).Ok? && |s| == 4 && Is(s[0], k0) && Is(s[1], k1)
    requires Is(s[2], k2) || (s[2] == '=' as byte && k2 == 0)
    requires Is(s[3], k3) || (s[3] == '=' as byte && k3 == 0)
    ensures var d := Decode(s).data;
            && |d| >= 1 && d[0] as nat == k0 * 4 + k1 / 16
            && (if s[2] == '=' as byte then |d| == 1 else |d| >= 2 && d[1] as nat == k1 % 16 * 16 + k2 / 4)
            && (if s[3] == '=' as byte then |d| <= 2 else |d| >= 3 && d[2] as nat == k2 % 4 * 64 + k3)
  {
    hide Is, Decode, Value, ByteOf, Alphabet, Unite, DecodePadded, Four;
    ValueIs(s[0], k0);
    ValueIs(s[1], k1);
    LetterOrPad(s[2], k2);
    LetterOrPad(s[3], k3);
    FourBytes(k0, k1, k2, k3);
    if s[3] != '=' as byte {
      assert s[..4] == s;
      FullIsTaken(s);
      DecodeParts(s);
      LettersOnly(s);
      UniteIs(s, k0, k1, k2, k3);
      OneQuantum(s);
    } else {
      var p := if s[2] == '=' as byte then 2 else 1;
      OneEnd(s);
      EndIsTaken(s, p);
    }
  }

  lemma LetterOrPad(c: byte, k: nat)
    requires Is(c, k) || (c == '=' as byte && k == 0)
    ensures k < 64 && PadValue(c) == k && (c != '=' as byte ==> Value(c) == k && Is(c, k))
  {
    hide Value;
    if Is(c, k) {
      hide Is;
      ValueIs(c, k);
    }
  }

  /** The bytes that stand in the place of the four letters from 4q on. */
  lemma {:induction false} DecodesBits(s: seq<byte>, q: nat, k0: nat, k1: nat, k2: nat, k3: nat)
    requires Decode(s).Ok? && 4 * q + 4 <= |s| && Is(s[4 * q], k0) && Is(s[4 * q + 1], k1)
    requires Is(s[4 * q + 2], k2) || (s[4 * q + 2] == '=' as byte && k2 == 0)
    requires Is(s[4 * q + 3], k3) || (s[4 * q + 3] == '=' as byte && k3 == 0)
    ensures var d, i := Decode(s).data, 3 * q;
            && |d| >= i + 1 && d[i] as nat == k0 * 4 + k1 / 16
            && (if s[4 * q + 2] == '=' as byte then |d| == i + 1
                else |d| >= i + 2 && d[i + 1] as nat == k1 % 16 * 16 + k2 / 4)
            && (if s[4 * q + 3] == '=' as byte then |d| <= i + 2
                else |d| >= i + 3 && d[i + 2] as nat == k2 % 4 * 64 + k3)
    decreases q
  {
    hide Is, Decode, Value, ByteOf, Alphabet, Unite, Padding, Four;
    AcceptsExactlyBase64(s);
    if |s| == 4 {
      OnlyQuantum(s, k0, k1, k2, k3);
    } else {
      FirstAreLetters(s);
      assert s == s[..4] + s[4..];
      Peel(s[..4], s[4..]);
      if q > 0 {
        DecodesBits(s[4..], q - 1, k0, k1, k2, k3);
      } else {
        LettersOnly(s[..4]);
        UniteIs(s[..4], k0, k1, k2, k3);
        FourBytes(k0, k1, k2, k3);
      }
    }
  }

  /** Letters with `p` times `=` after them, in whole quantums. */
  ghost predicate LettersThenPads(s: seq<byte>, p: nat)
  {
    && s != [] && |s| % 4 == 0 && p <= 2
    && (forall i :: 0 <= i < |s| - p ==> IsLetter(s[i]))
    && (forall i :: |s| - p <= i < |s| ==> s[i] == '=' as byte)
  }

  /** Letters in whole quantums, with up to two `=` at the very end, are what the decoder accepts. */
  lemma AcceptsExactlyLetters(s: seq<byte>)
    ensures Decode(s).Ok? <==> exists p :: LettersThenPads(s, p)
  {
    hide Decode, Value, IsLetter, Padding;
    AcceptsExactlyBase64(s);
    forall c ensures Value(c) != BAD <==> IsLetter(c) {
      LetterHasValue(c);
    }
    if p: nat :| Base64Text(s, p) {
      assert forall i :: 0 <= i < |s| - p ==> s[i] in s[..|s| - p];
      assert LettersThenPads(s, p);
    }
    if p: nat :| LettersThenPads(s, p) {
      assert Base64Text(s, p);
    }
  }
}
