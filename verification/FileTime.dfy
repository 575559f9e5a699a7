/** Unix time to a FILETIME in two 32-bit words (curl/lib/curl_ntlm_core.c), section 2.3.3 of MS-DTYP. */
module FileTime {

  const WORD: nat := 0x1_0000_0000
  const BIAS: nat := 11644473600     // seconds from 1601 to 1970
  const UNITS: nat := 10000000       // tenths of a microsecond in a second

  predicate Signed32(t: int)
  {
    -0x8000_0000 <= t < 0x8000_0000
  }

  /** The exact value the two words are to hold. */
  function Wide(t: int): int
  {
    (t + BIAS) * UNITS
  }

  function Low(v: int): nat
  {
    v % WORD
  }

  function High(v: int): nat
  {
    v / WORD % WORD
  }

  function Pow2(i: nat): (p: nat)
    requires i in {0, 8, 16, 24, 32}
    ensures p > 0
  {
    if i == 0 then 1 else if i == 8 then 0x100 else if i == 16 then 0x1_0000 else if i == 24 then 0x100_0000 else WORD
  }

  // ---------- one byte of the multiplication ----------

  /** The byte at bit `i`. */
  function ByteAt(x: nat, i: nat): nat
    requires i in {0, 8, 16, 24}
  {
    x / Pow2(i) % 256
  }

  /** `(p << i) & 0xFFFFFFFF`. */
  function Shifted(p: nat, i: nat): nat
    requires i in {0, 8, 16, 24}
  {
    p * Pow2(i) % WORD
  }

  /** `p >> (32 - i)`: what the shift to the left pushes out of the word. */
  function Spilled(p: nat, i: nat): nat
    requires i in {0, 8, 16, 24}
  {
    p / (WORD / Pow2(i))
  }

  lemma SplitProduct(p: nat, i: nat)
    requires i in {0, 8, 16, 24}
    ensures p * Pow2(i) == Spilled(p, i) * WORD + Shifted(p, i) && Shifted(p, i) < WORD
  {
  }

  lemma AddMultiple(x: int, k: int, i: nat)
    requires i in {0, 8, 16, 24}
    ensures (x + k * Pow2(i)) % Pow2(i) == x % Pow2(i)
  {
  }

  lemma WholeWords(c: int, i: nat)
    requires i in {0, 8, 16, 24}
    ensures c * WORD == c * (WORD / Pow2(i)) * Pow2(i)
  {
  }

  /** Adding a product shifted by `i` bits leaves the bytes below bit `i` alone. */
  lemma LowerBytesStay(low: nat, p: nat, i: nat)
    requires i in {0, 8, 16, 24}
    ensures (low + Shifted(p, i)) % WORD % Pow2(i) == low % Pow2(i)
  {
    var x := p * Pow2(i);
    var r, d := x % WORD, x / WORD;
    var c := (low + r) / WORD;
    var k := (c + d) * (WORD / Pow2(i));
    WholeWords(c + d, i);
    assert (low + r) % WORD == low + x - (c + d) * WORD;
    assert low + x - (c + d) * WORD == low + (p - k) * Pow2(i) by {
      Distribute(p, k, Pow2(i));
    }
    AddMultiple(low, p - k, i);
  }

  lemma Distribute(p: int, k: int, n: int)
    ensures (p - k) * n == p * n - k * n
  {
  }

  lemma Quotient(x: nat, i: nat, k: nat, b: nat)
    requires i in {0, 8, 16, 24} && x == k * Pow2(i) + b && b < Pow2(i)
    ensures x / Pow2(i) == k && x % Pow2(i) == b
  {
  }

  lemma Parts(x: nat, i: nat)
    requires i in {0, 8, 16, 24}
    ensures var q, r := x / Pow2(i + 8), x % Pow2(i + 8);
            var a, b := r / Pow2(i), r % Pow2(i);
            && x == (256 * q + a) * Pow2(i) + b && 0 <= a < 256
  {
  }

  /** A byte and what is below it depend only on the word up to the byte's end. */
  lemma ByteOfLowPart(x: nat, i: nat)
    requires i in {0, 8, 16, 24}
    ensures ByteAt(x, i) == x % Pow2(i + 8) / Pow2(i) && x % Pow2(i) == x % Pow2(i + 8) % Pow2(i)
  {
    var q, r := x / Pow2(i + 8), x % Pow2(i + 8);
    var a, b := r / Pow2(i), r % Pow2(i);
    Parts(x, i);
    assert (256 * q + a) % 256 == a;
    hide Pow2;
    Quotient(x, i, 256 * q + a, b);
  }

  /** The byte read at bit `i` is still the one of the word the loop started with. */
  lemma ByteIsOriginal(low: nat, start: nat, i: nat)
    requires i in {0, 8, 16, 24} && low % Pow2(i + 8) == start % Pow2(i + 8)
    ensures ByteAt(low, i) == ByteAt(start, i) && low % Pow2(i) == start % Pow2(i)
  {
    hide ByteAt, Pow2;
    ByteOfLowPart(low, i);
    ByteOfLowPart(start, i);
  }

  /** A word with the bytes below bit `i` cleared. */
  function UpFrom(x: nat, i: nat): nat
    requires i in {0, 8, 16, 24, 32}
  {
    x / Pow2(i) * Pow2(i)
  }

  /** The part of a word from bit `i` up, in terms of the part from the next byte up. */
  lemma OneMoreByte(start: nat, i: nat)
    requires i in {0, 8, 16, 24}
    ensures UpFrom(start, i) == UpFrom(start, i + 8) + ByteAt(start, i) * Pow2(i)
  {
    hide Pow2;
    var q, r := start / Pow2(i + 8), start % Pow2(i + 8);
    var a := r / Pow2(i);
    Parts(start, i);
    Quotient(start, i, 256 * q + a, r % Pow2(i));
    NextPow2(i);
    assert (256 * q + a) * Pow2(i) == q * (256 * Pow2(i)) + a * Pow2(i);
  }

  lemma NextPow2(i: nat)
    requires i in {0, 8, 16, 24}
    ensures Pow2(i + 8) == 256 * Pow2(i)
  {
  }

  /** One turn adds `byte * (UNITS - 1)` at bit `i` to the 64-bit value, with the carry. */
  lemma OneTurn(low: nat, high: nat, i: nat, start: nat)
    requires i in {0, 8, 16, 24} && low < WORD && start < WORD && low % Pow2(i + 8) == start % Pow2(i + 8)
    ensures var p := ByteAt(low, i) * (UNITS - 1);
            var r := Shifted(p, i);
            var low1 := (low + r) % WORD;
            var s := Spilled(p, i) + if low1 < r then 1 else 0;
            && (high + s) * WORD + low1 == high * WORD + low + ByteAt(start, i) * Pow2(i) * (UNITS - 1)
            && low1 % Pow2(i) == start % Pow2(i)
  {
    hide ByteAt, Shifted, Spilled;
    var p := ByteAt(low, i) * (UNITS - 1);
    ByteIsOriginal(low, start, i);
    SplitProduct(p, i);
    LowerBytesStay(low, p, i);
    assert p * Pow2(i) == ByteAt(start, i) * Pow2(i) * (UNITS - 1);
    Carry(low, Shifted(p, i));
  }

  lemma Carry(low: nat, r: nat)
    requires low < WORD && r < WORD
    ensures low + r == (low + r) % WORD + (if (low + r) % WORD < r then WORD else 0)
  {
  }

  // ---------- the two branches ----------

  /** The value as two words before the multiplication: sign extension and the bias carried into the high word. */
  lemma BiasedWords(t: int, negative: bool)
    requires if negative then -0x8000_0000 <= t < 0 else 0 <= t < WORD
    ensures var low, high := t % WORD, if negative then WORD - 1 else 0;
            var low1 := (low + 0xB610_9100) % WORD;
            var high1 := (high + if low1 < low then 3 else 2) % WORD;
            high1 * WORD + low1 == t + BIAS && high1 <= 3
  {
  }

  /** A right shift by 1 and then by `31 - i` is one by `32 - i`. */
  lemma SplitShift(s: nat, i: nat)
    requires i in {0, 8, 16, 24}
    ensures WORD / 2 / Pow2(i) > 0 && s / 2 / (WORD / 2 / Pow2(i)) == Spilled(s, i)
  {
    var n := WORD / 2 / Pow2(i);
    assert WORD / Pow2(i) == 2 * n && WORD / Pow2(i) in {0x100, 0x1_0000, 0x100_0000, WORD};
    HalfThenRest(s, n);
  }

  lemma HalfThenRest(s: nat, n: nat)
    requires n in {0x80, 0x8000, 0x80_0000, WORD / 2}
    ensures s / 2 / n == s / (2 * n)
  {
    var c, d := s / 2 / n, s / 2 % n;
    assert s / 2 == n * c + d && s == 2 * (s / 2) + s % 2;
    assert s == (2 * n) * c + (2 * d + s % 2);
    QuotientIs(s, 2 * n, c, 2 * d + s % 2);
  }

  lemma QuotientIs(s: nat, n: nat, c: nat, e: nat)
    requires n in {0x100, 0x1_0000, 0x100_0000, WORD} && s == n * c + e && e < n
    ensures s / n == c
  {
  }

  lemma WordsOf(v: nat, low: nat, high: nat)
    requires v == high * WORD + low && low < WORD && high < WORD
    ensures low == Low(v) && high == High(v)
  {
  }

  /** The state of the loop when the bytes from bit `i` up have been multiplied. */
  ghost predicate Multiplied(i: nat, low: nat, high: nat, start: nat, high0: nat)
  {
    && i in {0, 8, 16, 24, 32} && low < WORD && start < WORD && high0 <= 3
    && low % Pow2(i) == start % Pow2(i)
    && high * WORD + low == high0 * UNITS * WORD + start + UpFrom(start, i) * (UNITS - 1)
  }

  lemma HighIsSmall(i: nat, low: nat, high: nat, start: nat, high0: nat)
    requires Multiplied(i, low, high, start, high0)
    ensures low < WORD && high < 5 * UNITS
  {
    assert UpFrom(start, i) <= start;
  }

  lemma NextByte(i: nat, low: nat, high: nat, start: nat, high0: nat)
    requires Multiplied(i + 8, low, high, start, high0)
    ensures var p := ByteAt(low, i) * (UNITS - 1);
            var r := Shifted(p, i);
            var low1 := (low + r) % WORD;
            Multiplied(i, low1, high + Spilled(p, i) + (if low1 < r then 1 else 0), start, high0)
  {
    hide ByteAt, Pow2, UpFrom, Shifted, Spilled;
    OneTurn(low, high, i, start);
    OneMoreByte(start, i);
  }

  lemma AllMultiplied(low: nat, high: nat, start: nat, high0: nat)
    requires Multiplied(0, low, high, start, high0)
    ensures high * WORD + low == (high0 * WORD + start) * UNITS
  {
  }

  /** The words lose nothing: the time can be computed back from them, so different times have different words. */
  lemma WordsDetermineTheTime(t: int, u: int)
    requires 0 <= Wide(t) < WORD * WORD && 0 <= Wide(u) < WORD * WORD
    ensures High(Wide(t)) * 0x1_0000_0000 + Low(Wide(t)) == (t + 11644473600) * 10000000
    ensures (High(Wide(t)) * WORD + Low(Wide(t))) / UNITS - BIAS == t
    ensures Low(Wide(t)) == Low(Wide(u)) && High(Wide(t)) == High(Wide(u)) ==> t == u
  {
    JoinWords(Wide(t));
    JoinWords(Wide(u));
  }

  lemma JoinWords(v: nat)
    requires v < WORD * WORD
    ensures High(v) * WORD + Low(v) == v
  {
  }

  class MsFiletime {
    var dwLowDateTime: nat
    var dwHighDateTime: nat

    /** The low and the high word of `v` in two's complement. */
    ghost predicate Holds(v: int)
      reads this
    {
      && 0 <= dwLowDateTime < 0x1_0000_0000 && 0 <= dwHighDateTime < 0x1_0000_0000
      && (dwHighDateTime * 0x1_0000_0000 + dwLowDateTime - v) % 0x1_0000_0000_0000_0000 == 0
    }

    /** The time whose units these words count. */
    ghost function Time(): int
      reads this
    {
      (dwHighDateTime * 0x1_0000_0000 + dwLowDateTime) / 10000000 - 11644473600
    }

    /** The branch for a 64-bit `time_t`; the product must not overflow. From 1601 on the time can be read back. */
    method Time2Filetime64(t: int)
      requires -0x8000_0000_0000_0000 <= Wide(t) < 0x8000_0000_0000_0000
      modifies this
      ensures Holds((t + 11644473600) * 10000000)
      ensures t + 11644473600 >= 0 ==> Time() == t
    {
      if t + BIAS >= 0 {
        WordsDetermineTheTime(t, t);
      }
      var v := (t + 11644473600) * 10000000;
      dwLowDateTime := v % WORD;
      dwHighDateTime := v / WORD % WORD;
    }

    /** The branch for a 32-bit `time_t`, signed or not, in 32-bit words only. */
    method Time2Filetime32(t: int, isSigned: bool)
      requires if isSigned then Signed32(t) else 0 <= t < WORD
      modifies this
      ensures Holds((t + 11644473600) * 10000000) && Time() == t
    {
      WordsDetermineTheTime(t, t);
      hide Pow2, ByteAt, Multiplied;
      var negative := false;
      dwLowDateTime := t % WORD;
      dwHighDateTime := 0;
      if isSigned && dwLowDateTime >= 0x8000_0000 {
        dwHighDateTime := WORD - 1;
        negative := true;
      }
      BiasedWords(t, negative);
      var r := dwLowDateTime;
      dwLowDateTime := (dwLowDateTime + 0xB610_9100) % WORD;
      dwHighDateTime := (dwHighDateTime + if dwLowDateTime < r then 3 else 2) % WORD;
      ghost var start, high0 := dwLowDateTime, dwHighDateTime;
      dwHighDateTime := dwHighDateTime * UNITS % WORD;
      MultiplyStart(start, high0);
      Multiply(start, high0);
      WordsOf(Wide(t), dwLowDateTime, dwHighDateTime);
    }

    /** The multiplication by the other `UNITS - 1` units, a byte of the low word at a time from the top. */
    method Multiply(ghost start: nat, ghost high0: nat)
      requires Multiplied(32, dwLowDateTime, dwHighDateTime, start, high0)
      modifies this
      ensures dwLowDateTime < WORD && dwHighDateTime < WORD
      ensures dwHighDateTime * WORD + dwLowDateTime == (high0 * WORD + start) * UNITS
    {
      hide Multiplied;
      var i: nat := 32;
      while i != 0
        invariant i in {0, 8, 16, 24, 32} && Multiplied(i, dwLowDateTime, dwHighDateTime, start, high0)
        decreases i
      {
        i := i - 8;
        MultiplyByte(i, start, high0);
      }
      AllMultiplied(dwLowDateTime, dwHighDateTime, start, high0);
      HighIsSmall(0, dwLowDateTime, dwHighDateTime, start, high0);
      dwHighDateTime := dwHighDateTime % WORD;
    }

    /** One turn of the loop. */
    method MultiplyByte(i: nat, ghost start: nat, ghost high0: nat)
      requires i in {0, 8, 16, 24} && Multiplied(i + 8, dwLowDateTime, dwHighDateTime, start, high0)
      modifies this
      ensures Multiplied(i, dwLowDateTime, dwHighDateTime, start, high0)
    {
      hide Pow2, ByteAt, Multiplied, Spilled, Shifted;
      NextByte(i, dwLowDateTime, dwHighDateTime, start, high0);
      var s := ByteAt(dwLowDateTime, i) * (UNITS - 1);
      var r := Shifted(s, i);
      SplitShift(s, i);
      s := s / 2 / (WORD / 2 / Pow2(i));
      dwLowDateTime := (dwLowDateTime + r) % WORD;
      if dwLowDateTime < r {
        s := s + 1;
      }
      HighIsSmall(i, dwLowDateTime, dwHighDateTime + s, start, high0);
      dwHighDateTime := (dwHighDateTime + s) % WORD;
    }
  }

  lemma MultiplyStart(start: nat, high0: nat)
    requires start < WORD && high0 <= 3
    ensures Multiplied(32, start, high0 * UNITS % WORD, start, high0)
  {
  }
}
