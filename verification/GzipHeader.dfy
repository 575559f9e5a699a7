/** The gzip header check (curl/lib/content_encoding.c) against the member header of section 2.3 of RFC 1952. */
module GzipHeader {
  import opened Bytes

  const DEFLATED: byte := 8

  // FLG bits of section 2.3.1 of RFC 1952
  const HEAD_CRC: int := 0x02
  const EXTRA_FIELD: int := 0x04
  const ORIG_NAME: int := 0x08
  const COMMENT: int := 0x10
  const RESERVED_FROM: byte := 0x20   // any higher bit is reserved

  predicate Bit(flags: byte, mask: int)
    requires mask > 0
  {
    (flags as int / mask) % 2 == 1
  }

  datatype Verdict = Ok(len: nat) | Bad | Underflow

  /** The bytes up to and including the first NUL. */
  function Terminated(d: seq<byte>): (r: Verdict)
    ensures r.Ok? ==> 0 < r.len <= |d| && d[r.len - 1] == 0 && forall i :: 0 <= i < r.len - 1 ==> d[i] != 0
    ensures r.Underflow? ==> forall i :: 0 <= i < |d| ==> d[i] != 0
    ensures !r.Bad?
  {
    if d == [] then Underflow
    else if d[0] == 0 then Ok(1)
    else var r := Terminated(d[1..]); if r.Ok? then Ok(1 + r.len) else r
  }

  /** Two bytes of length, low byte first, then as many bytes. */
  function ExtraField(d: seq<byte>): (r: Verdict)
    ensures r.Ok? ==> r.len <= |d|
    ensures !r.Bad?
  {
    if |d| < 2 then Underflow else
    var n := d[1] as int * 256 + d[0] as int;
    if |d| < n + 2 then Underflow else Ok(n + 2)
  }

  function TwoBytes(d: seq<byte>): (r: Verdict)
    ensures r.Ok? ==> r.len <= |d|
    ensures !r.Bad?
  {
    if |d| < 2 then Underflow else Ok(2)
  }

  /** Runs `f` at offset `pos` when the part is present. */
  function Part(d: seq<byte>, pos: Verdict, present: bool, f: seq<byte> -> Verdict): Verdict
  {
    if !pos.Ok? || !present || pos.len > |d| then pos else
    var r := f(d[pos.len..]);
    if r.Ok? then Ok(pos.len + r.len) else r
  }

  predicate FixedPartOk(d: seq<byte>)
    requires |d| >= 10
  {
    d[0] == 0x1f && d[1] == 0x8b && d[2] == DEFLATED && d[3] < RESERVED_FROM
  }

  /** Where the extra field, the name, the comment and the CRC end, as the flags announce them. */
  function Ends(d: seq<byte>): (Verdict, Verdict, Verdict, Verdict)
    requires |d| >= 10
  {
    var afterExtra := Part(d, Ok(10), Bit(d[3], EXTRA_FIELD), ExtraField);
    var afterName := Part(d, afterExtra, Bit(d[3], ORIG_NAME), Terminated);
    var afterComment := Part(d, afterName, Bit(d[3], COMMENT), Terminated);
    (afterExtra, afterName, afterComment, Part(d, afterComment, Bit(d[3], HEAD_CRC), TwoBytes))
  }

  /** `check_gzip_header`. */
  function Check(d: seq<byte>): Verdict
  {
    if |d| < 10 then Underflow
    else if !FixedPartOk(d) then Bad
    else Ends(d).3
  }

  // ---------- verdicts are stable ----------

  /** More input changes no success, and the bytes that made it one are enough. */
  ghost predicate Stable(f: seq<byte> -> Verdict)
  {
    && (forall d, e :: f(d).Ok? ==> f(d + e) == f(d))
    && (forall d :: !f(d).Bad? && (f(d).Ok? ==> f(d).len <= |d|))
    && (forall d, n :: f(d).Ok? && f(d).len <= n <= |d| ==> f(d[..n]) == f(d))
  }

  lemma {:induction false} TerminatedIs(d: seq<byte>, n: nat)
    requires 0 < n <= |d| && d[n - 1] == 0 && forall i :: 0 <= i < n - 1 ==> d[i] != 0
    ensures Terminated(d) == Ok(n)
  {
    if n > 1 {
      TerminatedIs(d[1..], n - 1);
    }
  }

  lemma StableTerminated()
    ensures Stable(Terminated)
  {
    forall d: seq<byte>, e | Terminated(d).Ok? ensures Terminated(d + e) == Terminated(d) {
      TerminatedIs(d + e, Terminated(d).len);
    }
    forall d: seq<byte>, n | Terminated(d).Ok? && Terminated(d).len <= n <= |d| ensures Terminated(d[..n]) == Terminated(d) {
      TerminatedIs(d[..n], Terminated(d).len);
    }
  }

  lemma StableExtraField()
    ensures Stable(ExtraField)
  {
  }

  lemma StableTwoBytes()
    ensures Stable(TwoBytes)
  {
  }

  lemma PartStable(d: seq<byte>, e: seq<byte>, pos: Verdict, present: bool, f: seq<byte> -> Verdict)
    requires Stable(f) && (pos.Ok? ==> pos.len <= |d|) && Part(d, pos, present, f).Ok?
    ensures Part(d + e, pos, present, f) == Part(d, pos, present, f)
    ensures pos.Ok? && pos.len <= Part(d, pos, present, f).len <= |d|
  {
    if present {
      assert (d + e)[pos.len..] == d[pos.len..] + e;
    }
  }

  lemma PartRestrict(d: seq<byte>, n: nat, pos: Verdict, present: bool, f: seq<byte> -> Verdict)
    requires Stable(f) && pos.Ok? && pos.len <= |d|
    requires Part(d, pos, present, f).Ok? && Part(d, pos, present, f).len <= n <= |d|
    ensures Part(d[..n], pos, present, f) == Part(d, pos, present, f)
  {
    if present {
      assert d[..n][pos.len..] == d[pos.len..][..n - pos.len];
    }
  }

  lemma AllStable()
    ensures Stable(ExtraField) && Stable(Terminated) && Stable(TwoBytes)
  {
    StableTerminated();
    StableExtraField();
    StableTwoBytes();
  }

  /** A verdict other than underflow does not change as more bytes arrive. */
  lemma VerdictIsStable(d: seq<byte>, e: seq<byte>)
    requires !Check(d).Underflow?
    ensures Check(d + e) == Check(d)
    ensures Check(d).Ok? ==> 10 <= Check(d).len <= |d|
  {
    hide Stable, Part, Bit, ExtraField, Terminated, TwoBytes;
    AllStable();
    assert |d| >= 10 && forall i :: 0 <= i < 4 ==> (d + e)[i] == d[i];
    var p1 := Part(d, Ok(10), Bit(d[3], EXTRA_FIELD), ExtraField);
    var p2 := Part(d, p1, Bit(d[3], ORIG_NAME), Terminated);
    var p3 := Part(d, p2, Bit(d[3], COMMENT), Terminated);
    PartsOk(d, Ok(10), Bit(d[3], EXTRA_FIELD), ExtraField);
    PartsOk(d, p1, Bit(d[3], ORIG_NAME), Terminated);
    PartsOk(d, p2, Bit(d[3], COMMENT), Terminated);
    PartsOk(d, p3, Bit(d[3], HEAD_CRC), TwoBytes);
    if Check(d).Ok? {
      PartStable(d, e, Ok(10), Bit(d[3], EXTRA_FIELD), ExtraField);
      PartStable(d, e, p1, Bit(d[3], ORIG_NAME), Terminated);
      PartStable(d, e, p2, Bit(d[3], COMMENT), Terminated);
      PartStable(d, e, p3, Bit(d[3], HEAD_CRC), TwoBytes);
    }
  }

  lemma PartsOk(d: seq<byte>, pos: Verdict, present: bool, f: seq<byte> -> Verdict)
    requires Stable(f)
    ensures Part(d, pos, present, f).Bad? ==> pos.Bad?
    ensures Part(d, pos, present, f).Ok? ==> pos.Ok?
  {
  }

  /** The header is decided by its own bytes. */
  lemma HeaderIsEnough(d: seq<byte>, n: nat)
    requires Check(d).Ok? && Check(d).len <= n <= |d|
    ensures n >= 10 && Check(d[..n]) == Check(d)
  {
    hide Stable, Part, Bit, ExtraField, Terminated, TwoBytes;
    AllStable();
    var p1 := Part(d, Ok(10), Bit(d[3], EXTRA_FIELD), ExtraField);
    var p2 := Part(d, p1, Bit(d[3], ORIG_NAME), Terminated);
    var p3 := Part(d, p2, Bit(d[3], COMMENT), Terminated);
    PartsOk(d, Ok(10), Bit(d[3], EXTRA_FIELD), ExtraField);
    PartsOk(d, p1, Bit(d[3], ORIG_NAME), Terminated);
    PartsOk(d, p2, Bit(d[3], COMMENT), Terminated);
    PartsOk(d, p3, Bit(d[3], HEAD_CRC), TwoBytes);
    PartStable(d, [], Ok(10), Bit(d[3], EXTRA_FIELD), ExtraField);
    PartStable(d, [], p1, Bit(d[3], ORIG_NAME), Terminated);
    PartStable(d, [], p2, Bit(d[3], COMMENT), Terminated);
    PartStable(d, [], p3, Bit(d[3], HEAD_CRC), TwoBytes);
    PartRestrict(d, n, Ok(10), Bit(d[3], EXTRA_FIELD), ExtraField);
    PartRestrict(d, n, p1, Bit(d[3], ORIG_NAME), Terminated);
    PartRestrict(d, n, p2, Bit(d[3], COMMENT), Terminated);
    PartRestrict(d, n, p3, Bit(d[3], HEAD_CRC), TwoBytes);
  }

  /** When earlier bytes were not enough, the header ends strictly after them. */
  lemma EndIsPastTheBuffer(d: seq<byte>, e: seq<byte>)
    requires Check(d).Underflow? && Check(d + e).Ok?
    ensures |d| < Check(d + e).len <= |d| + |e|
  {
    hide Check;
    VerdictIsStable(d + e, []);
    assert d + e + [] == d + e && (d + e)[..|d|] == d;
    if Check(d + e).len <= |d| {
      HeaderIsEnough(d + e, |d|);
    }
  }

  // ---------- the header of RFC 1952 ----------

  /** A member header; a part whose flag is not set is empty. */
  datatype Header = Header(flags: byte, fixed: seq<byte>, extra: seq<byte>, name: seq<byte>, comment: seq<byte>, crc: seq<byte>)

  predicate WellFormed(h: Header)
  {
    && h.flags < RESERVED_FROM && |h.fixed| == 6 && |h.extra| < 65536
    && 0 !in h.name && 0 !in h.comment
    && (if Bit(h.flags, HEAD_CRC) then |h.crc| == 2 else h.crc == [])
    && (!Bit(h.flags, EXTRA_FIELD) ==> h.extra == [])
    && (!Bit(h.flags, ORIG_NAME) ==> h.name == []) && (!Bit(h.flags, COMMENT) ==> h.comment == [])
  }

  function ExtraBytes(x: seq<byte>): seq<byte>
    requires |x| < 65536
  {
    [(|x| % 256) as byte, (|x| / 256) as byte] + x
  }

  function FixedPart(h: Header): seq<byte>
  {
    [0x1f, 0x8b, DEFLATED, h.flags] + h.fixed
  }

  function ExtraPart(h: Header): seq<byte>
    requires |h.extra| < 65536
  {
    if Bit(h.flags, EXTRA_FIELD) then ExtraBytes(h.extra) else []
  }

  function TextPart(present: bool, text: seq<byte>): seq<byte>
  {
    if present then text + [0] else []
  }

  function UpToExtra(h: Header): seq<byte>
    requires |h.extra| < 65536
  {
    FixedPart(h) + ExtraPart(h)
  }

  function UpToName(h: Header): seq<byte>
    requires |h.extra| < 65536
  {
    UpToExtra(h) + TextPart(Bit(h.flags, ORIG_NAME), h.name)
  }

  function UpToComment(h: Header): seq<byte>
    requires |h.extra| < 65536
  {
    UpToName(h) + TextPart(Bit(h.flags, COMMENT), h.comment)
  }

  /** ID1 ID2 CM FLG, the fixed fields, then XLEN and extra field, file name, comment and CRC16 as flagged. */
  function Serialize(h: Header): seq<byte>
    requires WellFormed(h)
  {
    UpToComment(h) + h.crc
  }

  /** Bytes `from` to `to` of `d` are what a part holds: nothing when it is absent. */
  predicate PartFits(d: seq<byte>, from: nat, to: nat, present: bool, f: seq<byte> -> Verdict)
  {
    from <= to <= |d| && if present then f(d[from..to]) == Ok(to - from) else from == to
  }

  lemma FitIsRead(d: seq<byte>, from: nat, to: nat, present: bool, f: seq<byte> -> Verdict)
    requires Stable(f) && PartFits(d, from, to, present, f)
    ensures Part(d, Ok(from), present, f) == Ok(to) && from <= to <= |d|
  {
    if present {
      assert d[from..] == d[from..to] + d[to..];
    }
  }

  lemma ReadIsFit(d: seq<byte>, from: nat, present: bool, f: seq<byte> -> Verdict) returns (to: nat)
    requires Stable(f) && from <= |d| && Part(d, Ok(from), present, f).Ok?
    ensures PartFits(d, from, to, present, f) && Part(d, Ok(from), present, f) == Ok(to)
  {
    to := Part(d, Ok(from), present, f).len;
    if present {
      assert d[from..][..to - from] == d[from..to];
    }
  }

  /** `n1` to `n4` are where the extra field, the name, the comment and the CRC of a header end. */
  predicate Layout(d: seq<byte>, n1: nat, n2: nat, n3: nat, n4: nat)
  {
    && |d| >= 10 && FixedPartOk(d)
    && PartFits(d, 10, n1, Bit(d[3], EXTRA_FIELD), ExtraField)
    && PartFits(d, n1, n2, Bit(d[3], ORIG_NAME), Terminated)
    && PartFits(d, n2, n3, Bit(d[3], COMMENT), Terminated)
    && PartFits(d, n3, n4, Bit(d[3], HEAD_CRC), TwoBytes)
  }

  lemma LayoutIsAccepted(d: seq<byte>, n1: nat, n2: nat, n3: nat, n4: nat)
    requires Layout(d, n1, n2, n3, n4)
    ensures Check(d) == Ok(n4)
  {
    hide Stable, Part, PartFits, Bit, FixedPartOk, ExtraField, Terminated, TwoBytes;
    AllStable();
    FitIsRead(d, 10, n1, Bit(d[3], EXTRA_FIELD), ExtraField);
    FitIsRead(d, n1, n2, Bit(d[3], ORIG_NAME), Terminated);
    FitIsRead(d, n2, n3, Bit(d[3], COMMENT), Terminated);
    FitIsRead(d, n3, n4, Bit(d[3], HEAD_CRC), TwoBytes);
  }

  lemma FitEnds(d: seq<byte>, from: nat, to: nat, present: bool, f: seq<byte> -> Verdict)
    requires PartFits(d, from, to, present, f)
    ensures from <= to <= |d|
  {
  }

  lemma AcceptedHasLayout(d: seq<byte>) returns (n1: nat, n2: nat, n3: nat)
    requires Check(d).Ok?
    ensures Layout(d, n1, n2, n3, Check(d).len)
  {
    hide Stable, Part, PartFits, Bit, FixedPartOk, ExtraField, Terminated, TwoBytes;
    AllStable();
    var p1 := Part(d, Ok(10), Bit(d[3], EXTRA_FIELD), ExtraField);
    var p2 := Part(d, p1, Bit(d[3], ORIG_NAME), Terminated);
    var p3 := Part(d, p2, Bit(d[3], COMMENT), Terminated);
    PartsOk(d, p1, Bit(d[3], ORIG_NAME), Terminated);
    PartsOk(d, p2, Bit(d[3], COMMENT), Terminated);
    PartsOk(d, p3, Bit(d[3], HEAD_CRC), TwoBytes);
    n1 := ReadIsFit(d, 10, Bit(d[3], EXTRA_FIELD), ExtraField);
    FitEnds(d, 10, n1, Bit(d[3], EXTRA_FIELD), ExtraField);
    n2 := ReadIsFit(d, n1, Bit(d[3], ORIG_NAME), Terminated);
    FitEnds(d, n1, n2, Bit(d[3], ORIG_NAME), Terminated);
    n3 := ReadIsFit(d, n2, Bit(d[3], COMMENT), Terminated);
    FitEnds(d, n2, n3, Bit(d[3], COMMENT), Terminated);
    var n4 := ReadIsFit(d, n3, Bit(d[3], HEAD_CRC), TwoBytes);
  }

  // ---------- a serialized header is accepted ----------

  lemma Appended(d: seq<byte>, x: seq<byte>, present: bool, f: seq<byte> -> Verdict)
    requires if present then f(x) == Ok(|x|) else x == []
    ensures PartFits(d + x, |d|, |d + x|, present, f)
  {
    assert (d + x)[|d|..|d + x|] == x;
  }

  /** What follows a part does not change it. */
  lemma FitsInMore(d: seq<byte>, e: seq<byte>, from: nat, to: nat, present: bool, f: seq<byte> -> Verdict)
    requires PartFits(d, from, to, present, f)
    ensures PartFits(d + e, from, to, present, f)
  {
    assert (d + e)[from..to] == d[from..to];
  }

  lemma FixedPartOfMore(s: seq<byte>, x: seq<byte>)
    requires |s| >= 10
    ensures FixedPartOk(s + x) == FixedPartOk(s) && (s + x)[3] == s[3]
  {
  }

  lemma ExtraReads(x: seq<byte>)
    requires |x| < 65536
    ensures ExtraField(ExtraBytes(x)) == Ok(|ExtraBytes(x)|)
  {
  }

  lemma TerminatedReads(x: seq<byte>)
    requires 0 !in x
    ensures Terminated(x + [0]) == Ok(|x + [0]|)
  {
    TerminatedIs(x + [0], |x| + 1);
  }

  lemma TextReads(present: bool, x: seq<byte>)
    requires 0 !in x
    ensures if present then Terminated(TextPart(present, x)) == Ok(|TextPart(present, x)|) else TextPart(present, x) == []
  {
    hide Terminated;
    TerminatedReads(x);
  }

  lemma ExtraPartReads(h: Header)
    requires |h.extra| < 65536
    ensures if Bit(h.flags, EXTRA_FIELD) then ExtraField(ExtraPart(h)) == Ok(|ExtraPart(h)|) else ExtraPart(h) == []
  {
    hide Bit, ExtraField, ExtraBytes;
    ExtraReads(h.extra);
  }

  lemma CrcReads(h: Header)
    requires WellFormed(h)
    ensures if Bit(h.flags, HEAD_CRC) then TwoBytes(h.crc) == Ok(|h.crc|) else h.crc == []
  {
  }

  lemma SerializedStart(h: Header)
    requires WellFormed(h)
    ensures |FixedPart(h)| == 10 && |Serialize(h)| >= 10 && FixedPartOk(Serialize(h)) && Serialize(h)[3] == h.flags
  {
    hide ExtraPart, TextPart, Bit;
    FixedPartOfMore(FixedPart(h), ExtraPart(h));
    FixedPartOfMore(UpToExtra(h), TextPart(Bit(h.flags, ORIG_NAME), h.name));
    FixedPartOfMore(UpToName(h), TextPart(Bit(h.flags, COMMENT), h.comment));
    FixedPartOfMore(UpToComment(h), h.crc);
  }

  lemma SerializedLayout(h: Header)
    requires WellFormed(h)
    ensures Layout(Serialize(h), |UpToExtra(h)|, |UpToName(h)|, |UpToComment(h)|, |Serialize(h)|)
  {
    hide Bit, PartFits, FixedPartOk, ExtraField, ExtraPart, TextPart, Terminated, TwoBytes;
    SerializedStart(h);
    var name, comment := TextPart(Bit(h.flags, ORIG_NAME), h.name), TextPart(Bit(h.flags, COMMENT), h.comment);
    ExtraPartReads(h);
    Appended(FixedPart(h), ExtraPart(h), Bit(h.flags, EXTRA_FIELD), ExtraField);
    FitsInMore(UpToExtra(h), name, 10, |UpToExtra(h)|, Bit(h.flags, EXTRA_FIELD), ExtraField);
    FitsInMore(UpToName(h), comment, 10, |UpToExtra(h)|, Bit(h.flags, EXTRA_FIELD), ExtraField);
    FitsInMore(UpToComment(h), h.crc, 10, |UpToExtra(h)|, Bit(h.flags, EXTRA_FIELD), ExtraField);
    TextReads(Bit(h.flags, ORIG_NAME), h.name);
    Appended(UpToExtra(h), name, Bit(h.flags, ORIG_NAME), Terminated);
    FitsInMore(UpToName(h), comment, |UpToExtra(h)|, |UpToName(h)|, Bit(h.flags, ORIG_NAME), Terminated);
    FitsInMore(UpToComment(h), h.crc, |UpToExtra(h)|, |UpToName(h)|, Bit(h.flags, ORIG_NAME), Terminated);
    TextReads(Bit(h.flags, COMMENT), h.comment);
    Appended(UpToName(h), comment, Bit(h.flags, COMMENT), Terminated);
    FitsInMore(UpToComment(h), h.crc, |UpToName(h)|, |UpToComment(h)|, Bit(h.flags, COMMENT), Terminated);
    CrcReads(h);
    Appended(UpToComment(h), h.crc, Bit(h.flags, HEAD_CRC), TwoBytes);
  }

  // ---------- every accepted header is one ----------

  function HeaderAt(d: seq<byte>, n1: nat, n2: nat, n3: nat, n4: nat): Header
    requires 10 <= n1 <= n2 <= n3 <= n4 <= |d|
    requires Bit(d[3], EXTRA_FIELD) ==> 12 <= n1
    requires Bit(d[3], ORIG_NAME) ==> n1 < n2
    requires Bit(d[3], COMMENT) ==> n2 < n3
  {
    Header(d[3], d[4..10],
           if Bit(d[3], EXTRA_FIELD) then d[12..n1] else [],
           if Bit(d[3], ORIG_NAME) then d[n1..n2 - 1] else [],
           if Bit(d[3], COMMENT) then d[n2..n3 - 1] else [],
           d[n3..n4])
  }

  lemma ExtraFit(d: seq<byte>, to: nat)
    requires PartFits(d, 10, to, true, ExtraField)
    ensures 12 <= to <= |d| && to - 12 < 65536 && ExtraBytes(d[12..to]) == d[10..to]
  {
    assert d[10..to][0] == d[10] && d[10..to][1] == d[11];
  }

  lemma TextOf(t: seq<byte>)
    requires Terminated(t) == Ok(|t|)
    ensures |t| > 0 && 0 !in t[..|t| - 1] && t[..|t| - 1] + [0] == t
  {
    NulIsLast(t);
    LastApart(t);
  }

  lemma NulIsLast(t: seq<byte>)
    requires Terminated(t) == Ok(|t|)
    ensures |t| > 0 && t[|t| - 1] == 0 && forall i :: 0 <= i < |t| - 1 ==> t[i] != 0
  {
  }

  lemma LastApart(t: seq<byte>)
    requires |t| > 0
    ensures t[..|t| - 1] + [t[|t| - 1]] == t
  {
  }

  lemma TextFit(d: seq<byte>, from: nat, to: nat, present: bool)
    requires PartFits(d, from, to, present, Terminated)
    ensures from <= to <= |d| && (present ==> from < to && 0 !in d[from..to - 1])
    ensures TextPart(present, if present then d[from..to - 1] else []) == d[from..to]
  {
    hide Terminated;
    if present {
      TextOf(d[from..to]);
      assert d[from..to][..to - from - 1] == d[from..to - 1];
    }
  }

  lemma CrcFit(d: seq<byte>, from: nat, to: nat, present: bool)
    requires PartFits(d, from, to, present, TwoBytes)
    ensures from <= to <= |d| && if present then |d[from..to]| == 2 else d[from..to] == []
  {
  }

  lemma JoinPrefix(d: seq<byte>, b: nat, c: nat)
    requires b <= c <= |d|
    ensures d[..b] + d[b..c] == d[..c]
  {
  }

  lemma FixedFit(d: seq<byte>)
    requires |d| >= 10 && FixedPartOk(d)
    ensures [0x1f, 0x8b, DEFLATED, d[3]] + d[4..10] == d[..10]
  {
  }

  lemma LayoutRanges(d: seq<byte>, n1: nat, n2: nat, n3: nat, n4: nat)
    requires Layout(d, n1, n2, n3, n4)
    ensures 10 <= n1 <= n2 <= n3 <= n4 <= |d|
    ensures Bit(d[3], EXTRA_FIELD) ==> 12 <= n1 && n1 - 12 < 65536
    ensures Bit(d[3], ORIG_NAME) ==> n1 < n2
    ensures Bit(d[3], COMMENT) ==> n2 < n3
  {
    hide Bit, ExtraField, ExtraBytes, Terminated, TwoBytes;
    if Bit(d[3], EXTRA_FIELD) {
      ExtraFit(d, n1);
    }
    TextFit(d, n1, n2, Bit(d[3], ORIG_NAME));
    TextFit(d, n2, n3, Bit(d[3], COMMENT));
  }

  lemma LayoutIsWellFormed(d: seq<byte>, n1: nat, n2: nat, n3: nat, n4: nat) returns (h: Header)
    requires Layout(d, n1, n2, n3, n4)
    ensures 10 <= n1 <= n2 <= n3 <= n4 <= |d|
    ensures Bit(d[3], EXTRA_FIELD) ==> 12 <= n1
    ensures Bit(d[3], ORIG_NAME) ==> n1 < n2
    ensures Bit(d[3], COMMENT) ==> n2 < n3
    ensures h == HeaderAt(d, n1, n2, n3, n4) && WellFormed(h)
  {
    hide Bit, PartFits, ExtraField, ExtraBytes, Terminated, TwoBytes, TextPart;
    LayoutRanges(d, n1, n2, n3, n4);
    TextFit(d, n1, n2, Bit(d[3], ORIG_NAME));
    TextFit(d, n2, n3, Bit(d[3], COMMENT));
    CrcFit(d, n3, n4, Bit(d[3], HEAD_CRC));
    h := HeaderAt(d, n1, n2, n3, n4);
  }

  lemma LayoutIsSerialized(d: seq<byte>, n1: nat, n2: nat, n3: nat, n4: nat) returns (h: Header)
    requires Layout(d, n1, n2, n3, n4)
    ensures WellFormed(h) && n4 <= |d| && Serialize(h) == d[..n4]
  {
    hide Bit, PartFits, ExtraField, ExtraBytes, Terminated, TwoBytes, TextPart, WellFormed;
    h := LayoutIsWellFormed(d, n1, n2, n3, n4);
    FixedFit(d);
    assert |h.extra| < 65536 by { LayoutRanges(d, n1, n2, n3, n4); }
    assert ExtraPart(h) == d[10..n1] by {
      if Bit(d[3], EXTRA_FIELD) {
        ExtraFit(d, n1);
      } else {
        NoBytes(d, n1, ExtraField);
      }
    }
    JoinPrefix(d, 10, n1);
    TextFit(d, n1, n2, Bit(d[3], ORIG_NAME));
    JoinPrefix(d, n1, n2);
    TextFit(d, n2, n3, Bit(d[3], COMMENT));
    JoinPrefix(d, n2, n3);
    JoinPrefix(d, n3, n4);
  }

  lemma NoBytes(d: seq<byte>, to: nat, f: seq<byte> -> Verdict)
    requires PartFits(d, 10, to, false, f)
    ensures d[10..to] == []
  {
  }

  lemma SerializedIsAccepted(h: Header)
    requires WellFormed(h)
    ensures Check(Serialize(h)) == Ok(|Serialize(h)|)
  {
    hide Check, Layout, Serialize;
    SerializedLayout(h);
    LayoutIsAccepted(Serialize(h), |UpToExtra(h)|, |UpToName(h)|, |UpToComment(h)|, |Serialize(h)|);
  }

  /** The bytes of a member header of RFC 1952, and nothing else, are what is skipped. */
  lemma AcceptsExactlyHeaders(d: seq<byte>, n: nat)
    ensures Check(d) == Ok(n) <==> n <= |d| && exists h :: WellFormed(h) && Serialize(h) == d[..n]
  {
    hide Check, Layout, WellFormed, Serialize;
    if Check(d) == Ok(n) {
      var n1, n2, n3 := AcceptedHasLayout(d);
      var h := LayoutIsSerialized(d, n1, n2, n3, n);
    }
    if h :| n <= |d| && WellFormed(h) && Serialize(h) == d[..n] {
      SerializedIsAccepted(h);
      VerdictIsStable(d[..n], d[n..]);
      assert d == d[..n] + d[n..];
    }
  }

  // ---------- underflow can always be completed ----------

  ghost predicate CanEnd(f: seq<byte> -> Verdict, x: seq<byte>)
  {
    exists e :: f(x + e).Ok?
  }

  lemma TerminatedCanEnd(x: seq<byte>)
    ensures CanEnd(Terminated, x)
  {
    assert (x + [0])[|x|] == 0;
    assert Terminated(x + [0]).Ok?;
  }

  lemma ExtraFieldCanEnd(x: seq<byte>)
    ensures CanEnd(ExtraField, x)
  {
    var e: seq<byte> := seq(65540, _ => 0);
    assert ExtraField(x + e).Ok?;
  }

  lemma TwoBytesCanEnd(x: seq<byte>)
    ensures CanEnd(TwoBytes, x)
  {
    assert TwoBytes(x + [0, 0]).Ok?;
  }

  /** A part that cannot be read yet can be once more bytes have come. */
  lemma PartCanEnd(d: seq<byte>, pos: nat, present: bool, f: seq<byte> -> Verdict) returns (e: seq<byte>, to: nat)
    requires pos <= |d| && CanEnd(f, d[pos..]) && Stable(f)
    ensures PartFits(d + e, pos, to, present, f) && to <= |d + e|
  {
    if present {
      e :| f(d[pos..] + e).Ok?;
      to := pos + f(d[pos..] + e).len;
      SuffixOfMore(d, e, pos, to);
    } else {
      e, to := [], pos;
    }
  }

  lemma SuffixOfMore(d: seq<byte>, e: seq<byte>, pos: nat, to: nat)
    requires pos <= |d| && pos <= to <= |d + e|
    ensures (d[pos..] + e)[..to - pos] == (d + e)[pos..to]
  {
  }

  /** Underflow promises nothing about bytes yet to come beyond the fixed part: some continuation is a header. */
  lemma UnderflowCanEnd(d: seq<byte>) returns (e: seq<byte>)
    requires |d| >= 10 && FixedPartOk(d)
    ensures Check(d + e).Ok?
  {
    hide Stable, Part, PartFits, Bit, FixedPartOk, ExtraField, Terminated, TwoBytes, CanEnd, Check;
    AllStable();
    var flags := d[3];
    ExtraFieldCanEnd(d[10..]);
    var e1, n1 := PartCanEnd(d, 10, Bit(flags, EXTRA_FIELD), ExtraField);
    var d1 := d + e1;
    FitEnds(d1, 10, n1, Bit(flags, EXTRA_FIELD), ExtraField);
    TerminatedCanEnd(d1[n1..]);
    var e2, n2 := PartCanEnd(d1, n1, Bit(flags, ORIG_NAME), Terminated);
    var d2 := d1 + e2;
    FitEnds(d2, n1, n2, Bit(flags, ORIG_NAME), Terminated);
    FitsInMore(d1, e2, 10, n1, Bit(flags, EXTRA_FIELD), ExtraField);
    TerminatedCanEnd(d2[n2..]);
    var e3, n3 := PartCanEnd(d2, n2, Bit(flags, COMMENT), Terminated);
    var d3 := d2 + e3;
    FitEnds(d3, n2, n3, Bit(flags, COMMENT), Terminated);
    FitsInMore(d2, e3, 10, n1, Bit(flags, EXTRA_FIELD), ExtraField);
    FitsInMore(d2, e3, n1, n2, Bit(flags, ORIG_NAME), Terminated);
    TwoBytesCanEnd(d3[n3..]);
    var e4, n4 := PartCanEnd(d3, n3, Bit(flags, HEAD_CRC), TwoBytes);
    var d4 := d3 + e4;
    FitsInMore(d3, e4, 10, n1, Bit(flags, EXTRA_FIELD), ExtraField);
    FitsInMore(d3, e4, n1, n2, Bit(flags, ORIG_NAME), Terminated);
    FitsInMore(d3, e4, n2, n3, Bit(flags, COMMENT), Terminated);
    FixedPartOfMore(d, e1);
    FixedPartOfMore(d1, e2);
    FixedPartOfMore(d2, e3);
    FixedPartOfMore(d3, e4);
    LayoutIsAccepted(d4, n1, n2, n3, n4);
    e := e1 + e2 + e3 + e4;
    FourAppended(d, e1, e2, e3, e4);
  }

  lemma Associate(a: seq<byte>, b: seq<byte>, c: seq<byte>)
    ensures a + b + c == a + (b + c)
  {
  }

  lemma FourAppended(d: seq<byte>, e1: seq<byte>, e2: seq<byte>, e3: seq<byte>, e4: seq<byte>)
    ensures d + e1 + e2 + e3 + e4 == d + (e1 + e2 + e3 + e4)
  {
    Associate(d, e1, e2);
    Associate(d, e1 + e2, e3);
    Associate(d, e1 + e2 + e3, e4);
  }

  ghost predicate StartsWithHeader(d: seq<byte>)
  {
    exists h :: WellFormed(h) && Serialize(h) <= d
  }

  lemma OkMeansHeader(d: seq<byte>)
    ensures Check(d).Ok? <==> StartsWithHeader(d)
  {
    hide Check, WellFormed, Serialize;
    if Check(d).Ok? {
      AcceptsExactlyHeaders(d, Check(d).len);
    }
    if h :| WellFormed(h) && Serialize(h) <= d {
      AcceptsExactlyHeaders(d, |Serialize(h)|);
    }
  }

  lemma BadIsTheFixedPart(d: seq<byte>)
    ensures Check(d).Bad? <==> |d| >= 10 && !FixedPartOk(d)
  {
    hide Stable, Part, Bit, FixedPartOk, ExtraField, Terminated, TwoBytes;
    AllStable();
    if |d| >= 10 {
      var p1 := Part(d, Ok(10), Bit(d[3], EXTRA_FIELD), ExtraField);
      var p2 := Part(d, p1, Bit(d[3], ORIG_NAME), Terminated);
      var p3 := Part(d, p2, Bit(d[3], COMMENT), Terminated);
      PartsOk(d, Ok(10), Bit(d[3], EXTRA_FIELD), ExtraField);
      PartsOk(d, p1, Bit(d[3], ORIG_NAME), Terminated);
      PartsOk(d, p2, Bit(d[3], COMMENT), Terminated);
      PartsOk(d, p3, Bit(d[3], HEAD_CRC), TwoBytes);
    }
  }

  /** Bad: no continuation is a header. Underflow: none yet, but (past the fixed part) some continuation is one. */
  lemma VerdictsMean(d: seq<byte>)
    ensures Check(d).Ok? <==> StartsWithHeader(d)
    ensures Check(d).Bad? <==> |d| >= 10 && forall e :: !StartsWithHeader(d + e)
    ensures Check(d).Underflow? <==> |d| < 10 || (!StartsWithHeader(d) && exists e :: StartsWithHeader(d + e))
  {
    hide Check, StartsWithHeader, FixedPartOk;
    OkMeansHeader(d);
    BadIsTheFixedPart(d);
    if |d| < 10 {
      ShortIsUnderflow(d);
    } else if Check(d).Bad? {
      forall e ensures !StartsWithHeader(d + e) {
        VerdictIsStable(d, e);
        OkMeansHeader(d + e);
      }
    } else {
      var e := UnderflowCanEnd(d);
      OkMeansHeader(d + e);
    }
  }

  lemma ShortIsUnderflow(d: seq<byte>)
    requires |d| < 10
    ensures Check(d).Underflow?
  {
  }

  // ---------- the loops of the check ----------

  lemma NoNul(d: seq<byte>)
    requires forall i :: 0 <= i < |d| ==> d[i] != 0
    ensures Terminated(d) == Underflow
  {
  }

  /** Skips a NUL-terminated text at `start`, `len` bytes being left; what is left after it, or underflow. */
  method SkipText(data: seq<byte>, start: nat, len: nat) returns (ok: bool, left: nat)
    requires start + len == |data|
    ensures ok == Terminated(data[start..]).Ok?
    ensures ok ==> left <= len && Terminated(data[start..]) == Ok(len - left)
  {
    var pos := start;
    left := len;
    while left != 0 && data[pos] != 0
      invariant pos + left == |data| && start <= pos
      invariant forall i :: start <= i < pos ==> data[i] != 0
    {
      left := left - 1;
      pos := pos + 1;
    }
    if left == 0 || data[pos] != 0 {
      NoNul(data[start..]);
      return false, left;
    }
    left := left - 1;
    TerminatedIs(data[start..], len - left);
    ok := true;
  }

  lemma PartAt(d: seq<byte>, pos: nat, present: bool, f: seq<byte> -> Verdict)
    requires pos <= |d| && Stable(f)
    ensures Part(d, Ok(pos), present, f) ==
            if !present then Ok(pos) else if f(d[pos..]).Ok? then Ok(pos + f(d[pos..]).len) else Underflow
  {
  }

  lemma UnderflowStays(d: seq<byte>, present: bool, f: seq<byte> -> Verdict)
    ensures Part(d, Underflow, present, f) == Underflow
  {
  }

  /** Skips the extra field at `start`, `len` bytes being left. */
  method SkipExtra(data: seq<byte>, start: nat, len: nat) returns (ok: bool, left: nat)
    requires start + len == |data|
    ensures ok == ExtraField(data[start..]).Ok?
    ensures ok ==> left <= len && ExtraField(data[start..]) == Ok(len - left)
  {
    if len < 2 {
      return false, len;
    }
    var extraLen := data[start + 1] as int * 256 + data[start] as int;
    if len < extraLen + 2 {
      return false, len;
    }
    return true, len - (extraLen + 2);
  }

  /** `check_gzip_header`: `data` moves over the parts, `len` counts what is left. */
  method CheckGzipHeader(buffer: seq<byte>) returns (r: Verdict)
    ensures r == Check(buffer)
  {
    hide Part, Bit, ExtraField, Terminated, TwoBytes;
    if |buffer| < 10 {
      return Underflow;
    }
    if buffer[0] != 0x1f || buffer[1] != 0x8b {
      return Bad;
    }
    if buffer[2] != DEFLATED || buffer[3] >= RESERVED_FROM {
      return Bad;
    }
    r := CheckParts(buffer, buffer[3]);
  }

  /** The parts after the fixed one. */
  method CheckParts(buffer: seq<byte>, flags: byte) returns (r: Verdict)
    requires |buffer| >= 10 && flags == buffer[3]
    ensures r == Ends(buffer).3
  {
    hide Stable, Part, Bit, ExtraField, Terminated, TwoBytes;
    AllStable();
    UnderflowStays(buffer, Bit(flags, ORIG_NAME), Terminated);
    UnderflowStays(buffer, Bit(flags, COMMENT), Terminated);
    UnderflowStays(buffer, Bit(flags, HEAD_CRC), TwoBytes);
    var len, data := |buffer| - 10, 10;
    PartAt(buffer, 10, Bit(flags, EXTRA_FIELD), ExtraField);
    if Bit(flags, EXTRA_FIELD) {
      var ok, left := SkipExtra(buffer, data, len);
      if !ok {
        return Underflow;
      }
      data, len := data + (len - left), left;
    }
    PartAt(buffer, data, Bit(flags, ORIG_NAME), Terminated);
    if Bit(flags, ORIG_NAME) {
      var ok, left := SkipText(buffer, data, len);
      if !ok {
        return Underflow;
      }
      data, len := data + (len - left), left;
    }
    r := CheckLastParts(buffer, flags, data, len);
  }

  /** The comment, after which `data` is no longer needed, and the header CRC. */
  method CheckLastParts(buffer: seq<byte>, flags: byte, data: nat, start: nat) returns (r: Verdict)
    requires data + start == |buffer|
    ensures r == Part(buffer, Part(buffer, Ok(data), Bit(flags, COMMENT), Terminated), Bit(flags, HEAD_CRC), TwoBytes)
  {
    hide Stable, Part, Bit, Terminated, TwoBytes;
    AllStable();
    UnderflowStays(buffer, Bit(flags, HEAD_CRC), TwoBytes);
    var total, len := |buffer|, start;
    PartAt(buffer, data, Bit(flags, COMMENT), Terminated);
    if Bit(flags, COMMENT) {
      var ok, left := SkipText(buffer, data, len);
      if !ok {
        return Underflow;
      }
      len := left;
    }
    PartAt(buffer, total - len, Bit(flags, HEAD_CRC), TwoBytes);
    TwoBytesAt(buffer, total - len);
    if Bit(flags, HEAD_CRC) {
      if len < 2 {
        return Underflow;
      }
      len := len - 2;
    }
    r := Ok(total - len);
  }

  lemma TwoBytesAt(d: seq<byte>, pos: nat)
    requires pos <= |d|
    ensures TwoBytes(d[pos..]) == if |d| - pos < 2 then Underflow else Ok(2)
  {
  }
}
