/** Gzip members written out in the numbers of section 2.3 of RFC 1952, as the independent reading of the header check and
    of the gzip writer (curl/lib/content_encoding.c). */
module GzipBytes {
  import opened Bytes
  import opened CString
  import H = GzipHeader
  import W = GzipWriter

  /** The parts of a member header that are there; `fixed` is the time, the extra flags and the system. */
  datatype Parts = Parts(
    text: bool, fixed: seq<byte>, extra: Option<seq<byte>>, name: Option<seq<byte>>, comment: Option<seq<byte>>,
    crc: Option<seq<byte>>)

  predicate Good(m: Parts)
  {
    && |m.fixed| == 6
    && (m.extra.Some? ==> |m.extra.value| < 65536)
    && (m.name.Some? ==> 0 !in m.name.value)
    && (m.comment.Some? ==> 0 !in m.comment.value)
    && (m.crc.Some? ==> |m.crc.value| == 2)
  }

  /** FLG: one bit for each part. */
  function Flags(m: Parts): byte
  {
    (if m.text then 1 else 0) + (if m.crc.Some? then 2 else 0) + (if m.extra.Some? then 4 else 0)
    + (if m.name.Some? then 8 else 0) + (if m.comment.Some? then 16 else 0)
  }

  function Text(t: Option<seq<byte>>): seq<byte>
  {
    if t.Some? then t.value + [0] else []
  }

  function Counted(x: Option<seq<byte>>): seq<byte>
    requires x.Some? ==> |x.value| < 65536
  {
    if x.Some? then [(|x.value| % 256) as byte, (|x.value| / 256) as byte] + x.value else []
  }

  /** The bytes of a member header. */
  function Print(m: Parts): seq<byte>
    requires Good(m)
  {
    [31, 139, 8, Flags(m)] + m.fixed + Counted(m.extra) + Text(m.name) + Text(m.comment)
    + if m.crc.Some? then m.crc.value else []
  }

  function OrEmpty(x: Option<seq<byte>>): seq<byte>
  {
    if x.Some? then x.value else []
  }

  function HeaderOf(m: Parts): H.Header
  {
    H.Header(Flags(m), m.fixed, OrEmpty(m.extra), OrEmpty(m.name), OrEmpty(m.comment), OrEmpty(m.crc))
  }

  function When(present: bool, x: seq<byte>): Option<seq<byte>>
  {
    if present then Some(x) else None
  }

  function PartsOf(h: H.Header): Parts
  {
    var f := h.flags as int;
    Parts(f % 2 == 1, h.fixed, When(f / 4 % 2 == 1, h.extra), When(f / 8 % 2 == 1, h.name),
          When(f / 16 % 2 == 1, h.comment), When(f / 2 % 2 == 1, h.crc))
  }

  lemma BitsOf(m: Parts)
    ensures var f := Flags(m);
            && f < 32 && H.Bit(f, H.HEAD_CRC) == m.crc.Some? && H.Bit(f, H.EXTRA_FIELD) == m.extra.Some?
            && H.Bit(f, H.ORIG_NAME) == m.name.Some? && H.Bit(f, H.COMMENT) == m.comment.Some?
  {
  }

  lemma PrintIsSerialized(m: Parts)
    requires Good(m)
    ensures H.WellFormed(HeaderOf(m)) && H.Serialize(HeaderOf(m)) == Print(m)
  {
    hide H.Bit, Flags;
    BitsOf(m);
  }

  lemma FlagsBack(f: byte)
    requires f < 32
    ensures var n := f as int;
            f == (if n % 2 == 1 then 1 else 0) + (if n / 2 % 2 == 1 then 2 else 0) + (if n / 4 % 2 == 1 then 4 else 0)
                 + (if n / 8 % 2 == 1 then 8 else 0) + (if n / 16 % 2 == 1 then 16 else 0)
  {
  }

  lemma HeaderBack(h: H.Header)
    requires H.WellFormed(h)
    ensures Good(PartsOf(h)) && HeaderOf(PartsOf(h)) == h
  {
    FlagsBack(h.flags);
  }

  /** What the header check skips is exactly a printed member header. */
  lemma SkipsExactlyPrinted(d: seq<byte>, n: nat)
    ensures H.Check(d) == H.Ok(n) <==> n <= |d| && exists m :: Good(m) && Print(m) == d[..n]
  {
    hide H.Check, H.WellFormed, H.Serialize, Good, Print, PartsOf, HeaderOf;
    H.AcceptsExactlyHeaders(d, n);
    if h :| n <= |d| && H.WellFormed(h) && H.Serialize(h) == d[..n] {
      HeaderBack(h);
      PrintIsSerialized(PartsOf(h));
    }
    if m :| n <= |d| && Good(m) && Print(m) == d[..n] {
      PrintIsSerialized(m);
    }
  }

  ghost predicate IsMember(z: W.Inflate, t: seq<byte>, m: Parts, body: seq<byte>, tail: seq<byte>)
  {
    Good(m) && t == Print(m) + body + tail && z(body) == W.End(|body|) && |tail| == 8
  }

  /** A response is finished, with `body` inflated, exactly when its bytes, however they arrived, are a printed header,
      a compressed body that inflate ends at its last byte, and eight bytes more. */
  lemma FinishedExactlyByMembers(z: W.Inflate, chunks: seq<seq<byte>>, body: seq<byte>)
    requires W.Consumer(z)
    ensures W.Run(z, chunks) == W.Fine(W.State(W.Uninit, [], 0, body)) <==>
            exists m, tail :: IsMember(z, W.Flatten(chunks), m, body, tail)
  {
    hide W.Consumer, W.Run, H.WellFormed, H.Serialize, Good, Print, PartsOf, HeaderOf;
    W.FinishedExactly(z, chunks, body);
    var t := W.Flatten(chunks);
    if h, tail :| W.Member(z, t, h, body, tail) {
      HeaderBack(h);
      PrintIsSerialized(PartsOf(h));
      assert IsMember(z, t, PartsOf(h), body, tail);
    }
    if m, tail :| IsMember(z, t, m, body, tail) {
      PrintIsSerialized(m);
      assert W.Member(z, t, HeaderOf(m), body, tail);
    }
  }

  // ---------- failures ----------

  /** The bytes are a printed header and `body`. */
  ghost predicate Splits(t: seq<byte>, m: Parts, body: seq<byte>)
  {
    Good(m) && t == Print(m) + body
  }

  lemma SplitIsRead(t: seq<byte>, m: Parts, body: seq<byte>)
    requires Splits(t, m, body)
    ensures t != [] && H.Check(t).Ok? && H.Check(t).len <= |t| && t[H.Check(t).len..] == body
  {
    hide H.Check, Good;
    assert t[..|Print(m)|] == Print(m);
    SkipsExactlyPrinted(t, |Print(m)|);
  }

  lemma ReadIsSplit(t: seq<byte>) returns (m: Parts, body: seq<byte>)
    requires H.Check(t).Ok?
    ensures Splits(t, m, body) && H.Check(t).len <= |t| && body == t[H.Check(t).len..]
  {
    hide H.Check, Good, Print;
    var n := H.Check(t).len;
    SkipsExactlyPrinted(t, n);
    m :| Good(m) && Print(m) == t[..n];
    body := t[n..];
  }

  /** The first ten bytes are there and are not those of a member. */
  predicate BadStart(t: seq<byte>)
  {
    |t| >= 10 && (t[0] != 31 || t[1] != 139 || t[2] != 8 || t[3] >= 32)
  }

  lemma BadIsBadStart(t: seq<byte>)
    ensures H.Check(t).Bad? <==> BadStart(t)
  {
    hide H.Check;
    H.BadIsTheFixedPart(t);
  }

  /** A response fails in two ways: its bytes are no gzip member, or there are more than eight bytes after the body. */
  lemma FailsExactly(z: W.Inflate, chunks: seq<seq<byte>>)
    requires W.Consumer(z)
    ensures var t := W.Flatten(chunks);
            && (W.Run(z, chunks) == W.Failed(W.BadContentEncoding) <==>
                  BadStart(t) || exists m, body :: Splits(t, m, body) && z(body) == W.Fail)
            && (W.Run(z, chunks) == W.Failed(W.WriteError) <==>
                  exists m, body :: Splits(t, m, body) && z(body).End? && |body| > z(body).used + 8)
            && (W.Run(z, chunks).Failed? ==> W.Run(z, chunks).code in {W.BadContentEncoding, W.WriteError})
  {
    hide W.Consumer, W.Run, W.Flatten, Splits, H.Check, BadStart;
    W.ChunksDoNotMatter(z, chunks);
    var t := W.Flatten(chunks);
    BadIsBadStart(t);
    if H.Check(t).Ok? {
      var m, body := ReadIsSplit(t);
    }
    forall m, body | Splits(t, m, body)
      ensures t != [] && H.Check(t).Ok? && H.Check(t).len <= |t| && t[H.Check(t).len..] == body
    {
      SplitIsRead(t, m, body);
    }
    H.ShortIsUnderflow([]);
  }
}
