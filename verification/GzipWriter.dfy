/** The gzip writer for an old zlib (curl/lib/content_encoding.c): it finds the header itself, over any number of calls. */
module GzipWriter {
  import opened Bytes
  import opened GzipHeader

  datatype Code = OK | WriteError | BadContentEncoding

  /** What inflate says of the bytes it has been offered so far: `used` of them end the stream. */
  datatype Inflated = More | End(used: nat) | Fail

  type Inflate = seq<byte> -> Inflated

  /** A consumer of a byte sequence: its verdict is settled by the first bytes that decide it. */
  ghost predicate Consumer(z: Inflate)
  {
    && z([]) == More
    && (forall s, e :: z(s) != More ==> z(s + e) == z(s))
    && (forall s :: z(s).End? ==> z(s).used <= |s|)
    && (forall s, n :: z(s).End? && z(s).used <= n <= |s| ==> z(s[..n]) == z(s))
  }

  datatype Phase = Init | GzipHeader | GzipInflating | ExternalTrailer | Uninit

  /** `zlib_init`, the header bytes kept so far, `trailerlen`, and the bytes inflate has consumed. */
  datatype State = State(phase: Phase, kept: seq<byte>, trailer: nat, fed: seq<byte>)

  datatype Result = Fine(s: State) | Failed(code: Code)

  const TRAILER: nat := 8   // a CRC-32 and a 32-bit size, section 2.3.1 of RFC 1952

  const Start: State := State(Init, [], TRAILER, [])

  /** The header is looked for again only while the bytes kept do not hold one. */
  predicate Valid(s: State)
  {
    s.phase == GzipHeader ==> Check(s.kept).Underflow?
  }

  // ---------- one call ----------

  /** `process_trailer`, with `avail` bytes left. */
  function ProcessTrailer(s: State, avail: nat): Result
  {
    var len := if avail < s.trailer then avail else s.trailer;
    if avail > len then Failed(WriteError)
    else if s.trailer == len then Fine(s.(phase := Uninit, trailer := 0))
    else Fine(s.(phase := ExternalTrailer, trailer := s.trailer - len))
  }

  /** `inflate_stream`, on the bytes of this call that belong to the stream. */
  function InflateStream(z: Inflate, s: State, c: seq<byte>): Result
    requires Consumer(z)
  {
    if c == [] then Fine(s)
    else if s.phase != GzipInflating then Failed(WriteError)
    else
      var all := s.fed + c;
      match z(all)
      case More => Fine(s.(fed := all))
      case Fail => Failed(BadContentEncoding)
      case End(used) => ProcessTrailer(s.(fed := all[..used]), |all| - used)
  }

  /** `Curl_unencode_write` on this writer: `gzip_unencode_write` unless there is nothing to write. */
  function Write(z: Inflate, s: State, c: seq<byte>): Result
    requires Consumer(z) && Valid(s)
  {
    if c == [] then Fine(s) else
    match s.phase
    case Init => (
      match Check(c)
      case Ok(hlen) =>
        VerdictIsStable(c, []);
        InflateStream(z, s.(phase := GzipInflating), c[hlen..])
      case Underflow => Fine(s.(phase := GzipHeader, kept := c))
      case Bad => Failed(BadContentEncoding))
    case GzipHeader => (
      var all := s.kept + c;
      match Check(all)
      case Ok(hlen) =>
        EndIsPastTheBuffer(s.kept, c);
        InflateStream(z, s.(phase := GzipInflating, kept := []), c[hlen + |c| - |all|..])
      case Underflow => Fine(s.(kept := all))
      case Bad => Failed(BadContentEncoding))
    case ExternalTrailer => ProcessTrailer(s, |c|)
    case GzipInflating => InflateStream(z, s, c)
    case Uninit => InflateStream(z, s, c)
  }

  // ---------- the whole stream at once ----------

  /** What the bytes after the header amount to. */
  function OutcomeOfBody(z: Inflate, body: seq<byte>): Result
    requires Consumer(z)
  {
    match z(body)
    case More => Fine(State(GzipInflating, [], TRAILER, body))
    case Fail => Failed(BadContentEncoding)
    case End(used) =>
      if |body| > used + TRAILER then Failed(WriteError) else
      var left := used + TRAILER - |body|;
      Fine(State(if left == 0 then Uninit else ExternalTrailer, [], left, body[..used]))
  }

  /** What the bytes `t` of a response amount to, however they arrived. */
  function Outcome(z: Inflate, t: seq<byte>): Result
    requires Consumer(z)
  {
    if t == [] then Fine(Start) else
    match Check(t)
    case Underflow => Fine(State(GzipHeader, t, TRAILER, []))
    case Bad => Failed(BadContentEncoding)
    case Ok(n) => VerdictIsStable(t, []); OutcomeOfBody(z, t[n..])
  }

  lemma OutcomeIsValid(z: Inflate, t: seq<byte>)
    requires Consumer(z) && Outcome(z, t).Fine?
    ensures Valid(Outcome(z, t).s)
  {
    hide Check, Consumer;
  }

  lemma UsedIsBounded(z: Inflate, s: seq<byte>, c: seq<byte>)
    requires Consumer(z) && z(s + c).End?
    ensures z(s + c).used <= |s| + |c|
    ensures z(s) == More ==> z(s + c).used > |s|
  {
    assert (s + c)[..|s|] == s;
  }

  /** Offering the rest of the stream to a stream that still wants it. */
  lemma InflateMore(z: Inflate, s: State, c: seq<byte>)
    requires Consumer(z) && s.phase == GzipInflating && s.kept == [] && s.trailer == TRAILER && z(s.fed) == More
    ensures InflateStream(z, s, c) == OutcomeOfBody(z, s.fed + c)
  {
    hide Consumer;
    if c == [] {
      assert s.fed + c == s.fed;
    } else if z(s.fed + c).End? {
      UsedIsBounded(z, s.fed, c);
    }
  }

  /** One call on a stream whose header ended in an earlier one. */
  lemma BodyMore(z: Inflate, body: seq<byte>, c: seq<byte>)
    requires Consumer(z) && c != []
    ensures OutcomeOfBody(z, body).Failed? ==> OutcomeOfBody(z, body + c) == OutcomeOfBody(z, body)
    ensures OutcomeOfBody(z, body).Fine? ==> Write(z, OutcomeOfBody(z, body).s, c) == OutcomeOfBody(z, body + c)
  {
    hide Consumer;
    if z(body) == More {
      InflateMore(z, State(GzipInflating, [], TRAILER, body), c);
    } else {
      VerdictStays(z, body, c);
    }
  }

  lemma VerdictStays(z: Inflate, body: seq<byte>, c: seq<byte>)
    requires Consumer(z) && z(body) != More
    ensures z(body + c) == z(body)
    ensures z(body).End? ==> z(body).used <= |body| && (body + c)[..z(body).used] == body[..z(body).used]
  {
  }

  /** The first call that brings bytes. */
  lemma FirstCall(z: Inflate, c: seq<byte>)
    requires Consumer(z) && c != []
    ensures Write(z, Start, c) == Outcome(z, c)
  {
    hide Consumer, Check, InflateStream, OutcomeOfBody;
    if Check(c).Ok? {
      VerdictIsStable(c, []);
      var body := c[Check(c).len..];
      FirstBody(z, body);
    }
  }

  lemma FirstBody(z: Inflate, body: seq<byte>)
    requires Consumer(z)
    ensures InflateStream(z, Start.(phase := GzipInflating), body) == OutcomeOfBody(z, body)
  {
    InflateMore(z, Start.(phase := GzipInflating), body);
    assert [] + body == body;
  }

  /** A call while the header was not complete. */
  lemma HeaderCall(z: Inflate, t: seq<byte>, c: seq<byte>)
    requires Consumer(z) && c != [] && t != [] && Check(t).Underflow?
    ensures Write(z, State(GzipHeader, t, TRAILER, []), c) == Outcome(z, t + c)
  {
    hide Consumer, Check, InflateStream, OutcomeOfBody;
    var all := t + c;
    if Check(all).Ok? {
      EndIsPastTheBuffer(t, c);
      SameRest(t, c, Check(all).len);
      FirstBody(z, all[Check(all).len..]);
    }
  }

  /** The pointer computed from the end of this call's bytes is where the stream starts. */
  lemma SameRest(t: seq<byte>, c: seq<byte>, n: nat)
    requires |t| <= n <= |t + c|
    ensures 0 <= n + |c| - |t + c| <= |c| && c[n + |c| - |t + c|..] == (t + c)[n..]
  {
  }

  /** One more call carries the verdict on the bytes so far to the verdict on all of them. */
  lemma OneMoreCall(z: Inflate, t: seq<byte>, c: seq<byte>)
    requires Consumer(z)
    ensures Outcome(z, t).Failed? ==> Outcome(z, t + c) == Outcome(z, t)
    ensures Outcome(z, t).Fine? ==> Valid(Outcome(z, t).s) && Write(z, Outcome(z, t).s, c) == Outcome(z, t + c)
  {
    hide Consumer, Check, Write, OutcomeOfBody;
    if Outcome(z, t).Fine? {
      OutcomeIsValid(z, t);
    }
    if c == [] {
      assert t + c == t;
      if Outcome(z, t).Fine? {
        NothingToWrite(z, t);
      }
    } else if t == [] {
      assert t + c == c;
      FirstCall(z, c);
    } else {
      VerdictIsStableHere(t, c);
      if Check(t).Underflow? {
        HeaderCall(z, t, c);
      } else if Check(t).Ok? {
        var n := Check(t).len;
        assert (t + c)[n..] == t[n..] + c;
        BodyMore(z, t[n..], c);
      }
    }
  }

  lemma NothingToWrite(z: Inflate, t: seq<byte>)
    requires Consumer(z) && Outcome(z, t).Fine? && Valid(Outcome(z, t).s)
    ensures Write(z, Outcome(z, t).s, []) == Outcome(z, t)
  {
    hide Outcome;
  }

  lemma VerdictIsStableHere(t: seq<byte>, c: seq<byte>)
    ensures !Check(t).Underflow? ==> Check(t + c) == Check(t)
    ensures Check(t).Ok? ==> Check(t).len <= |t|
  {
    hide Check;
    if !Check(t).Underflow? {
      VerdictIsStable(t, c);
    }
  }

  // ---------- any number of calls ----------

  function Flatten(chunks: seq<seq<byte>>): seq<byte>
  {
    if chunks == [] then [] else Flatten(chunks[..|chunks| - 1]) + chunks[|chunks| - 1]
  }

  /** One call after another; a failure ends the transfer. */
  function Run(z: Inflate, chunks: seq<seq<byte>>): (r: Result)
    requires Consumer(z)
    ensures r.Fine? ==> Valid(r.s)
  {
    if chunks == [] then Fine(Start) else
    var r := Run(z, chunks[..|chunks| - 1]);
    if r.Failed? then r else
    WriteKeepsValid(z, r.s, chunks[|chunks| - 1]);
    Write(z, r.s, chunks[|chunks| - 1])
  }

  lemma WriteKeepsValid(z: Inflate, s: State, c: seq<byte>)
    requires Consumer(z) && Valid(s)
    ensures Write(z, s, c).Fine? ==> Valid(Write(z, s, c).s)
  {
    hide Consumer, Check;
  }

  /** However a response is cut into calls, the verdict, the state and the bytes inflate has consumed are the same. */
  lemma {:induction false} ChunksDoNotMatter(z: Inflate, chunks: seq<seq<byte>>)
    requires Consumer(z)
    ensures Run(z, chunks) == Outcome(z, Flatten(chunks))
  {
    hide Consumer, Check, Write, Outcome;
    if chunks == [] {
      EmptyOutcome(z);
    } else {
      ChunksDoNotMatter(z, chunks[..|chunks| - 1]);
      OneMoreCall(z, Flatten(chunks[..|chunks| - 1]), chunks[|chunks| - 1]);
    }
  }

  lemma EmptyOutcome(z: Inflate)
    requires Consumer(z)
    ensures Outcome(z, []) == Fine(Start)
  {
  }

  /** A member: a header, a complete compressed stream and the trailer. */
  ghost predicate Member(z: Inflate, t: seq<byte>, h: Header, body: seq<byte>, tail: seq<byte>)
  {
    && WellFormed(h) && t == Serialize(h) + body + tail
    && z(body) == End(|body|) && |tail| == TRAILER
  }

  lemma FinishedIsMember(z: Inflate, t: seq<byte>) returns (h: Header, body: seq<byte>, tail: seq<byte>)
    requires Consumer(z) && Outcome(z, t).Fine? && Outcome(z, t).s.phase == Uninit
    ensures Member(z, t, h, body, tail) && Outcome(z, t).s.fed == body
  {
    hide Check, WellFormed, Serialize, Consumer;
    VerdictIsStable(t, []);
    var n := Check(t).len;
    AcceptsExactlyHeaders(t, n);
    h :| WellFormed(h) && Serialize(h) == t[..n];
    var rest := t[n..];
    EndsWhereItSays(z, rest);
    body, tail := rest[..z(rest).used], rest[z(rest).used..];
    ThreeParts(t, n, z(rest).used);
  }

  lemma EndsWhereItSays(z: Inflate, s: seq<byte>)
    requires Consumer(z) && z(s).End?
    ensures z(s).used <= |s| && z(s[..z(s).used]) == z(s)
  {
  }

  lemma ThreeParts(t: seq<byte>, n: nat, k: nat)
    requires n + k <= |t|
    ensures t == t[..n] + t[n..][..k] + t[n..][k..]
  {
  }

  lemma MemberIsFinished(z: Inflate, t: seq<byte>, h: Header, body: seq<byte>, tail: seq<byte>)
    requires Consumer(z) && Member(z, t, h, body, tail)
    ensures Outcome(z, t) == Fine(State(Uninit, [], 0, body))
  {
    hide Check, WellFormed, Serialize, Consumer;
    var hs := Serialize(h);
    assert t[..|hs|] == hs;
    AcceptsExactlyHeaders(t, |hs|);
    assert t[|hs|..] == body + tail;
    BodyIsFinished(z, body, tail);
    VerdictIsStable(t, []);
  }

  lemma BodyIsFinished(z: Inflate, body: seq<byte>, tail: seq<byte>)
    requires Consumer(z) && z(body) == End(|body|) && |tail| == TRAILER
    ensures OutcomeOfBody(z, body + tail) == Fine(State(Uninit, [], 0, body))
  {
    assert z(body + tail) == z(body);
    assert (body + tail)[..|body|] == body;
  }

  /** The stream is finished exactly by one whole member, and inflate has then consumed exactly its compressed part. */
  lemma FinishedExactly(z: Inflate, chunks: seq<seq<byte>>, body: seq<byte>)
    requires Consumer(z)
    ensures Run(z, chunks) == Fine(State(Uninit, [], 0, body)) <==>
            exists h, tail :: Member(z, Flatten(chunks), h, body, tail)
  {
    hide Consumer, Run, Outcome, Member, Flatten;
    ChunksDoNotMatter(z, chunks);
    var t := Flatten(chunks);
    if Run(z, chunks) == Fine(State(Uninit, [], 0, body)) {
      var h, body', tail := FinishedIsMember(z, t);
    }
    if h, tail :| Member(z, t, h, body, tail) {
      MemberIsFinished(z, t, h, body, tail);
    }
  }
}
