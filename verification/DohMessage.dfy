/** The messages of section 4.1 of RFC 1035, and what the decoder makes of them. */
module DohMessage {
  import opened Bytes
  import opened DohName
  import opened DohDecode

  function Bytes16(n: nat): seq<byte>
    requires n < 0x1_0000
  {
    [(n / 256) as byte, (n % 256) as byte]
  }

  function Bytes32(n: nat): seq<byte>
    requires n < 0x1_0000_0000
  {
    Bytes16(n / 65536) + Bytes16(n % 65536)
  }

  datatype Question = Question(name: WireName, qtype: nat, qclass: nat)

  datatype Record = Record(name: WireName, rtype: nat, rclass: nat, ttl: nat, rdata: seq<byte>)

  predicate GoodQuestion(q: Question)
  {
    GoodName(q.name) && q.qtype < 0x1_0000 && q.qclass < 0x1_0000
  }

  predicate GoodRecord(r: Record)
  {
    GoodName(r.name) && r.rtype < 0x1_0000 && r.rclass < 0x1_0000 && r.ttl < 0x1_0000_0000 && |r.rdata| < 0x1_0000
  }

  function QuestionBytes(q: Question): seq<byte>
    requires GoodQuestion(q)
  {
    NameBytes(q.name) + (Bytes16(q.qtype) + Bytes16(q.qclass))
  }

  /** TYPE, CLASS, TTL, RDLENGTH and RDATA: section 4.1.3 of RFC 1035. */
  function FieldBytes(r: Record): seq<byte>
    requires GoodRecord(r)
  {
    Bytes16(r.rtype) + (Bytes16(r.rclass) + (Bytes32(r.ttl) + (Bytes16(|r.rdata|) + r.rdata)))
  }

  function RecordBytes(r: Record): seq<byte>
    requires GoodRecord(r)
  {
    NameBytes(r.name) + FieldBytes(r)
  }

  predicate GoodQuestions(qs: seq<Question>)
  {
    forall q :: q in qs ==> GoodQuestion(q)
  }

  predicate GoodRecords(rs: seq<Record>)
  {
    forall r :: r in rs ==> GoodRecord(r)
  }

  function QuestionsBytes(qs: seq<Question>): seq<byte>
    requires GoodQuestions(qs)
  {
    if qs == [] then [] else QuestionBytes(qs[0]) + QuestionsBytes(qs[1..])
  }

  function RecordsBytes(rs: seq<Record>): seq<byte>
    requires GoodRecords(rs)
  {
    if rs == [] then [] else RecordBytes(rs[0]) + RecordsBytes(rs[1..])
  }

  // ---------- words and fields ----------

  lemma Word16At(doh: seq<byte>, index: nat, n: nat)
    requires n < 0x1_0000
    ensures At(doh, index, Bytes16(n)) <==> index + 2 <= |doh| && Word16(doh, index) == n
  {
    if index + 2 <= |doh| {
      assert doh[index..index + 2] == [doh[index], doh[index + 1]];
    }
  }

  lemma Word32At(doh: seq<byte>, index: nat, n: nat)
    requires n < 0x1_0000_0000
    ensures At(doh, index, Bytes32(n)) <==> index + 4 <= |doh| && Word32(doh, index) == n
  {
    hide At, Bytes16, Word16;
    AtSplit(doh, index, Bytes16(n / 65536), Bytes16(n % 65536));
    assert |Bytes16(n / 65536)| == 2 by { Bytes16Length(n / 65536); }
    Word16At(doh, index, n / 65536);
    Word16At(doh, index + 2, n % 65536);
    if index + 4 <= |doh| {
      Word16IsSmall(doh, index);
      Word16IsSmall(doh, index + 2);
    }
  }

  lemma Bytes16Length(n: nat)
    requires n < 0x1_0000
    ensures |Bytes16(n)| == 2
  {
  }

  lemma Word16IsSmall(doh: seq<byte>, index: nat)
    requires index + 2 <= |doh|
    ensures Word16(doh, index) < 0x1_0000
  {
  }

  lemma Word32IsSmall(doh: seq<byte>, index: nat)
    requires index + 4 <= |doh|
    ensures Word32(doh, index) < 0x1_0000_0000
  {
    hide Word16;
    Word16IsSmall(doh, index);
    Word16IsSmall(doh, index + 2);
  }

  /** What the fields of a record look like to the decoder. */
  predicate FieldsAt(doh: seq<byte>, i: nat, r: Record)
  {
    && i + 10 + |r.rdata| <= |doh|
    && Word16(doh, i) == r.rtype && Word16(doh, i + 2) == r.rclass && Word32(doh, i + 4) == r.ttl
    && Word16(doh, i + 8) == |r.rdata| && doh[i + 10..i + 10 + |r.rdata|] == r.rdata
  }

  lemma FieldsAreThere(doh: seq<byte>, i: nat, r: Record)
    requires GoodRecord(r)
    ensures At(doh, i, FieldBytes(r)) <==> FieldsAt(doh, i, r)
    ensures |FieldBytes(r)| == 10 + |r.rdata|
  {
    hide At, Bytes16, Bytes32, Word16, Word32;
    var x5 := r.rdata;
    var x4 := Bytes16(|r.rdata|) + x5;
    var x3 := Bytes32(r.ttl) + x4;
    var x2 := Bytes16(r.rclass) + x3;
    FieldLengths(r);
    AtSplit(doh, i, Bytes16(r.rtype), x2);
    AtSplit(doh, i + 2, Bytes16(r.rclass), x3);
    AtSplit(doh, i + 4, Bytes32(r.ttl), x4);
    AtSplit(doh, i + 8, Bytes16(|r.rdata|), x5);
    Word16At(doh, i, r.rtype);
    Word16At(doh, i + 2, r.rclass);
    Word32At(doh, i + 4, r.ttl);
    Word16At(doh, i + 8, |r.rdata|);
    AtMeans(doh, i + 10, x5);
  }

  lemma AtMeans(doh: seq<byte>, index: nat, x: seq<byte>)
    ensures At(doh, index, x) <==> index + |x| <= |doh| && doh[index..index + |x|] == x
  {
  }

  lemma FieldLengths(r: Record)
    requires GoodRecord(r)
    ensures |Bytes16(r.rtype)| == 2 && |Bytes16(r.rclass)| == 2 && |Bytes32(r.ttl)| == 4 && |Bytes16(|r.rdata|)| == 2
  {
  }

  // ---------- one record ----------

  lemma QuestionTail(doh: seq<byte>, i: nat, q: Question)
    requires GoodQuestion(q)
    ensures var tail := Bytes16(q.qtype) + Bytes16(q.qclass);
            |tail| == 4 && (At(doh, i, tail) <==> i + 4 <= |doh| && Word16(doh, i) == q.qtype && Word16(doh, i + 2) == q.qclass)
  {
    hide At, Bytes16, Word16;
    Bytes16Length(q.qtype);
    Bytes16Length(q.qclass);
    AtSplit(doh, i, Bytes16(q.qtype), Bytes16(q.qclass));
    Word16At(doh, i, q.qtype);
    Word16At(doh, i + 2, q.qclass);
  }

  lemma QuestionIsSkipped(doh: seq<byte>, index: nat, q: Question)
    requires GoodQuestion(q) && At(doh, index, QuestionBytes(q))
    ensures QuestionAt(doh, index) == Ok(index + |QuestionBytes(q)|)
  {
    hide At, NameBytes, Skip, Bytes16, GoodName;
    var tail := Bytes16(q.qtype) + Bytes16(q.qclass);
    AtSplit(doh, index, NameBytes(q.name), tail);
    SkipsTheName(doh, index, q.name);
    QuestionTail(doh, index + |NameBytes(q.name)|, q);
  }

  lemma SkippedIsAQuestion(doh: seq<byte>, index: nat) returns (q: Question)
    requires QuestionAt(doh, index).Ok?
    ensures GoodQuestion(q) && At(doh, index, QuestionBytes(q))
  {
    hide At, NameBytes, Skip, Bytes16, GoodName, Word16;
    var name := SkippedIsAName(doh, index);
    var i := index + |NameBytes(name)|;
    Word16IsSmall(doh, i);
    Word16IsSmall(doh, i + 2);
    q := Question(name, Word16(doh, i), Word16(doh, i + 2));
    QuestionTail(doh, i, q);
    AtSplit(doh, index, NameBytes(name), Bytes16(q.qtype) + Bytes16(q.qclass));
  }

  lemma RecordParts(doh: seq<byte>, index: nat, r: Record)
    requires GoodRecord(r)
    ensures var i := index + |NameBytes(r.name)|;
            && |RecordBytes(r)| == |NameBytes(r.name)| + 10 + |r.rdata|
            && (At(doh, index, RecordBytes(r)) <==> At(doh, index, NameBytes(r.name)) && FieldsAt(doh, i, r))
  {
    hide At, NameBytes, FieldBytes, FieldsAt, GoodName;
    AtSplit(doh, index, NameBytes(r.name), FieldBytes(r));
    FieldsAreThere(doh, index + |NameBytes(r.name)|, r);
  }

  lemma RecordIsSkipped(doh: seq<byte>, index: nat, r: Record)
    requires GoodRecord(r) && At(doh, index, RecordBytes(r))
    ensures OtherAt(doh, index) == Ok(index + |RecordBytes(r)|)
  {
    hide At, NameBytes, Skip, RecordBytes, GoodName, Word16, Word32;
    RecordParts(doh, index, r);
    SkipsTheName(doh, index, r.name);
  }

  /** The record whose name ends at `i`, as far as its bytes are there. */
  function RecordFrom(doh: seq<byte>, name: WireName, i: nat): Record
    requires i + 10 <= |doh| && i + 10 + Word16(doh, i + 8) <= |doh|
  {
    Record(name, Word16(doh, i), Word16(doh, i + 2), Word32(doh, i + 4), doh[i + 10..i + 10 + Word16(doh, i + 8)])
  }

  lemma RecordFromIsThere(doh: seq<byte>, index: nat, name: WireName)
    requires GoodName(name) && At(doh, index, NameBytes(name))
    requires var i := index + |NameBytes(name)|; i + 10 <= |doh| && i + 10 + Word16(doh, i + 8) <= |doh|
    ensures var r := RecordFrom(doh, name, index + |NameBytes(name)|); GoodRecord(r) && At(doh, index, RecordBytes(r))
  {
    hide At, NameBytes, RecordBytes, GoodName, Word16, Word32;
    var i := index + |NameBytes(name)|;
    Word16IsSmall(doh, i);
    Word16IsSmall(doh, i + 2);
    Word32IsSmall(doh, i + 4);
    Word16IsSmall(doh, i + 8);
    RecordParts(doh, index, RecordFrom(doh, name, i));
  }

  lemma SkippedIsARecord(doh: seq<byte>, index: nat) returns (r: Record)
    requires OtherAt(doh, index).Ok?
    ensures GoodRecord(r) && At(doh, index, RecordBytes(r))
  {
    hide At, NameBytes, Skip, RecordBytes, GoodName, Word16, Word32, GoodRecord;
    var name := SkippedIsAName(doh, index);
    RecordFromIsThere(doh, index, name);
    r := RecordFrom(doh, name, index + |NameBytes(name)|);
  }

  // ---------- one answer ----------

  function Cut<T>(s: seq<T>, limit: nat): seq<T>
  {
    if |s| <= limit then s else s[..limit]
  }

  function Min(a: nat, b: nat): nat
  {
    if b < a then b else a
  }

  predicate WithinLimits(e: Entry)
  {
    |e.cnames| <= MAX_CNAME && |e.addrs| <= MAX_ADDR
  }

  function NewAddresses(r: Record): seq<Address>
  {
    if r.rtype == TYPE_A then [V4(r.rdata)] else if r.rtype == TYPE_AAAA then [V6(r.rdata)] else []
  }

  /** The name a CNAME record at `at` refers to. */
  function NewNames(doh: seq<byte>, at: nat, r: Record): seq<seq<byte>>
  {
    if r.rtype == TYPE_CNAME then [Read(doh, at, LOOPS, []).1] else []
  }

  /** What an answer adds to an entry: its address or name while there is room, and the smaller TTL. */
  function Effect(doh: seq<byte>, at: nat, r: Record, e: Entry): Entry
  {
    Entry(Cut(e.cnames + NewNames(doh, at, r), MAX_CNAME), Cut(e.addrs + NewAddresses(r), MAX_ADDR), Min(e.ttl, r.ttl))
  }

  /** An answer of a type that was asked for or leads on, of class IN, whose data has the length and form of its type. */
  predicate Acceptable(doh: seq<byte>, at: nat, r: Record, dnstype: nat, e: Entry)
  {
    && r.rclass == CLASS_IN && Wanted(r.rtype, dnstype)
    && (r.rtype == TYPE_A ==> |r.rdata| == 4)
    && (r.rtype == TYPE_AAAA ==> |r.rdata| == 16)
    && (r.rtype == TYPE_CNAME && |e.cnames| < MAX_CNAME ==> Read(doh, at, LOOPS, []).0 == OK)
  }

  lemma CutAll<T>(s: seq<T>, limit: nat)
    requires |s| <= limit
    ensures Cut(s, limit) == s && Cut(s + [], limit) == s
  {
    assert s + [] == s;
  }

  lemma CutOne<T>(s: seq<T>, x: T, limit: nat)
    requires |s| <= limit
    ensures Cut(s + [x], limit) == if |s| < limit then s + [x] else s
  {
  }

  lemma RdataMeans(doh: seq<byte>, at: nat, r: Record, dnstype: nat, e: Entry)
    requires at + |r.rdata| <= |doh| && doh[at..at + |r.rdata|] == r.rdata && WithinLimits(e)
    requires r.rclass == CLASS_IN && Wanted(r.rtype, dnstype)
    ensures Rdata(doh, |r.rdata|, r.rtype, at, e).0 == OK <==> Acceptable(doh, at, r, dnstype, e)
    ensures Acceptable(doh, at, r, dnstype, e) ==>
            Rdata(doh, |r.rdata|, r.rtype, at, e.(ttl := Min(e.ttl, r.ttl))) == (OK, Effect(doh, at, r, e))
    ensures Rdata(doh, |r.rdata|, r.rtype, at, e.(ttl := Min(e.ttl, r.ttl))).0 == Rdata(doh, |r.rdata|, r.rtype, at, e).0
  {
    hide Read, Cut;
    CutAll(e.cnames, MAX_CNAME);
    CutAll(e.addrs, MAX_ADDR);
    if r.rtype == TYPE_CNAME {
      CutOne(e.cnames, Read(doh, at, LOOPS, []).1, MAX_CNAME);
    } else if r.rtype == TYPE_A {
      CutOne(e.addrs, V4(r.rdata), MAX_ADDR);
    } else if r.rtype == TYPE_AAAA {
      CutOne(e.addrs, V6(r.rdata), MAX_ADDR);
    }
  }

  function RdataAt(index: nat, r: Record): nat
    requires GoodRecord(r)
  {
    index + |NameBytes(r.name)| + 10
  }

  /** An answer that stands at `index` is taken exactly when it is acceptable. */
  lemma AnswerIsTaken(doh: seq<byte>, index: nat, r: Record, dnstype: nat, e: Entry)
    requires GoodRecord(r) && At(doh, index, RecordBytes(r)) && WithinLimits(e)
    ensures AnswerAt(doh, index, dnstype, e).next.Ok? <==> Acceptable(doh, RdataAt(index, r), r, dnstype, e)
    ensures Acceptable(doh, RdataAt(index, r), r, dnstype, e) ==>
            AnswerAt(doh, index, dnstype, e)
            == Answered(Ok(index + |RecordBytes(r)|), r.rtype, Effect(doh, RdataAt(index, r), r, e))
  {
    hide At, NameBytes, Skip, RecordBytes, GoodName, Word16, Word32, Rdata, Effect;
    RecordParts(doh, index, r);
    SkipsTheName(doh, index, r.name);
    if r.rclass == CLASS_IN && Wanted(r.rtype, dnstype) {
      RdataMeans(doh, RdataAt(index, r), r, dnstype, e);
    }
  }

  lemma TakenIsAnAnswer(doh: seq<byte>, index: nat, dnstype: nat, e: Entry) returns (r: Record)
    requires AnswerAt(doh, index, dnstype, e).next.Ok? && WithinLimits(e)
    ensures GoodRecord(r) && At(doh, index, RecordBytes(r)) && Acceptable(doh, RdataAt(index, r), r, dnstype, e)
  {
    hide At, NameBytes, Skip, RecordBytes, GoodName, GoodRecord, Word16, Word32, Rdata, Acceptable;
    var name := SkippedIsAName(doh, index);
    RecordFromIsThere(doh, index, name);
    r := RecordFrom(doh, name, index + |NameBytes(name)|);
    AnswerIsTaken(doh, index, r, dnstype, e);
  }

  // ---------- the sections ----------

  lemma {:induction false} QuestionsAreSkipped(doh: seq<byte>, index: nat, qs: seq<Question>)
    requires GoodQuestions(qs) && At(doh, index, QuestionsBytes(qs))
    ensures Questions(doh, |qs|, index) == Ok(index + |QuestionsBytes(qs)|)
    decreases |qs|
  {
    hide At, QuestionBytes, QuestionAt;
    if qs != [] {
      AtSplit(doh, index, QuestionBytes(qs[0]), QuestionsBytes(qs[1..]));
      QuestionIsSkipped(doh, index, qs[0]);
      QuestionsAreSkipped(doh, index + |QuestionBytes(qs[0])|, qs[1..]);
    }
  }

  lemma AtNothing(doh: seq<byte>, index: nat)
    ensures At(doh, index, []) <==> index <= |doh|
  {
  }

  lemma {:induction false} SkippedAreQuestions(doh: seq<byte>, index: nat, count: nat) returns (qs: seq<Question>)
    requires Questions(doh, count, index).Ok? && index <= |doh|
    ensures GoodQuestions(qs) && |qs| == count && At(doh, index, QuestionsBytes(qs))
    decreases count
  {
    hide At, QuestionBytes, QuestionAt;
    AtNothing(doh, index);
    qs := [];
    if count > 0 {
      var q := SkippedIsAQuestion(doh, index);
      QuestionIsSkipped(doh, index, q);
      AtEnd(doh, index, QuestionBytes(q));
      var rest := SkippedAreQuestions(doh, index + |QuestionBytes(q)|, count - 1);
      qs := [q] + rest;
      assert qs[1..] == rest;
      AtSplit(doh, index, QuestionBytes(q), QuestionsBytes(rest));
    }
  }

  lemma AtEnd(doh: seq<byte>, index: nat, x: seq<byte>)
    requires At(doh, index, x)
    ensures index + |x| <= |doh|
  {
  }

  lemma {:induction false} RecordsAreSkipped(doh: seq<byte>, index: nat, rs: seq<Record>)
    requires GoodRecords(rs) && At(doh, index, RecordsBytes(rs))
    ensures Others(doh, |rs|, index) == Ok(index + |RecordsBytes(rs)|)
    decreases |rs|
  {
    hide At, RecordBytes, OtherAt, GoodRecord;
    if rs != [] {
      AtSplit(doh, index, RecordBytes(rs[0]), RecordsBytes(rs[1..]));
      RecordIsSkipped(doh, index, rs[0]);
      RecordsAreSkipped(doh, index + |RecordBytes(rs[0])|, rs[1..]);
    }
  }

  lemma {:induction false} SkippedAreRecords(doh: seq<byte>, index: nat, count: nat) returns (rs: seq<Record>)
    requires Others(doh, count, index).Ok? && index <= |doh|
    ensures GoodRecords(rs) && |rs| == count && At(doh, index, RecordsBytes(rs))
    decreases count
  {
    hide At, RecordBytes, OtherAt, GoodRecord;
    AtNothing(doh, index);
    rs := [];
    if count > 0 {
      var r := SkippedIsARecord(doh, index);
      RecordIsSkipped(doh, index, r);
      AtEnd(doh, index, RecordBytes(r));
      var rest := SkippedAreRecords(doh, index + |RecordBytes(r)|, count - 1);
      rs := [r] + rest;
      assert rs[1..] == rest;
      AtSplit(doh, index, RecordBytes(r), RecordsBytes(rest));
    }
  }

  // ---------- the answer section ----------

  /** The entry after the answers from `index` on. */
  function AfterAll(doh: seq<byte>, index: nat, rs: seq<Record>, e: Entry): Entry
    requires GoodRecords(rs)
    decreases |rs|
  {
    if rs == [] then e
    else AfterAll(doh, index + |RecordBytes(rs[0])|, rs[1..], Effect(doh, RdataAt(index, rs[0]), rs[0], e))
  }

  predicate AllAcceptable(doh: seq<byte>, index: nat, rs: seq<Record>, dnstype: nat, e: Entry)
    requires GoodRecords(rs)
    decreases |rs|
  {
    rs != [] ==>
      && Acceptable(doh, RdataAt(index, rs[0]), rs[0], dnstype, e)
      && AllAcceptable(doh, index + |RecordBytes(rs[0])|, rs[1..], dnstype, Effect(doh, RdataAt(index, rs[0]), rs[0], e))
  }

  function LastType(rs: seq<Record>, before: nat): nat
  {
    if rs == [] then before else rs[|rs| - 1].rtype
  }

  lemma EffectWithinLimits(doh: seq<byte>, at: nat, r: Record, e: Entry)
    ensures WithinLimits(Effect(doh, at, r, e))
  {
    hide Read;
  }

  /** The answers that stand at `index` are all taken exactly when each is acceptable in its turn. */
  lemma {:induction false} AnswersAreTaken(doh: seq<byte>, index: nat, rs: seq<Record>, dnstype: nat, before: nat, e: Entry)
    requires GoodRecords(rs) && At(doh, index, RecordsBytes(rs)) && WithinLimits(e)
    ensures Answers(doh, |rs|, index, dnstype, before, e).next.Ok? <==> AllAcceptable(doh, index, rs, dnstype, e)
    ensures AllAcceptable(doh, index, rs, dnstype, e) ==>
            Answers(doh, |rs|, index, dnstype, before, e)
            == Answered(Ok(index + |RecordsBytes(rs)|), LastType(rs, before), AfterAll(doh, index, rs, e))
    decreases |rs|
  {
    hide At, RecordBytes, AnswerAt, GoodRecord, Effect, Acceptable, WithinLimits, RdataAt;
    if rs != [] {
      var r, next := rs[0], index + |RecordBytes(rs[0])|;
      var e1 := Effect(doh, RdataAt(index, r), r, e);
      AtSplit(doh, index, RecordBytes(r), RecordsBytes(rs[1..]));
      AnswerIsTaken(doh, index, r, dnstype, e);
      EffectWithinLimits(doh, RdataAt(index, r), r, e);
      AnswersAreTaken(doh, next, rs[1..], dnstype, r.rtype, e1);
    }
  }

  lemma {:induction false} TakenAreAnswers(doh: seq<byte>, index: nat, count: nat, dnstype: nat, before: nat, e: Entry)
    returns (rs: seq<Record>)
    requires Answers(doh, count, index, dnstype, before, e).next.Ok? && WithinLimits(e) && index <= |doh|
    ensures GoodRecords(rs) && |rs| == count && At(doh, index, RecordsBytes(rs))
    decreases count
  {
    hide At, RecordBytes, AnswerAt, GoodRecord, Effect, Acceptable, WithinLimits, RdataAt;
    AtNothing(doh, index);
    rs := [];
    if count > 0 {
      var r := TakenIsAnAnswer(doh, index, dnstype, e);
      AnswerIsTaken(doh, index, r, dnstype, e);
      EffectWithinLimits(doh, RdataAt(index, r), r, e);
      AtEnd(doh, index, RecordBytes(r));
      var rest := TakenAreAnswers(doh, index + |RecordBytes(r)|, count - 1, dnstype, r.rtype, Effect(doh, RdataAt(index, r), r, e));
      rs := [r] + rest;
      assert rs[1..] == rest;
      AtSplit(doh, index, RecordBytes(r), RecordsBytes(rest));
    }
  }

  /** All addresses the answers bring, in order. */
  function Addresses(rs: seq<Record>): seq<Address>
  {
    if rs == [] then [] else NewAddresses(rs[0]) + Addresses(rs[1..])
  }

  /** The names their CNAME records refer to, in order. */
  function Names(doh: seq<byte>, index: nat, rs: seq<Record>): seq<seq<byte>>
    requires GoodRecords(rs)
    decreases |rs|
  {
    if rs == [] then []
    else NewNames(doh, RdataAt(index, rs[0]), rs[0]) + Names(doh, index + |RecordBytes(rs[0])|, rs[1..])
  }

  function SmallestTtl(rs: seq<Record>, ttl: nat): nat
  {
    if rs == [] then ttl else SmallestTtl(rs[1..], Min(ttl, rs[0].ttl))
  }

  lemma CutTwice<T>(s: seq<T>, x: seq<T>, y: seq<T>, limit: nat)
    ensures Cut(Cut(s + x, limit) + y, limit) == Cut(s + (x + y), limit)
  {
    assert s + (x + y) == s + x + y;
  }

  /** Together they add their addresses, and names, to those before, cut at the limits, and lower the TTL to the smallest. */
  lemma {:induction false} AfterAllIs(doh: seq<byte>, index: nat, rs: seq<Record>, e: Entry)
    requires GoodRecords(rs) && WithinLimits(e)
    ensures AfterAll(doh, index, rs, e)
            == Entry(Cut(e.cnames + Names(doh, index, rs), MAX_CNAME), Cut(e.addrs + Addresses(rs), MAX_ADDR), SmallestTtl(rs, e.ttl))
    decreases |rs|
  {
    hide Cut, NewNames, NewAddresses, RecordBytes, RdataAt, GoodRecord, Min;
    if rs == [] {
      CutAll(e.cnames, MAX_CNAME);
      CutAll(e.addrs, MAX_ADDR);
    } else {
      var at, next := RdataAt(index, rs[0]), index + |RecordBytes(rs[0])|;
      var e1 := Effect(doh, at, rs[0], e);
      EffectWithinLimits(doh, at, rs[0], e);
      AfterAllIs(doh, next, rs[1..], e1);
      CutTwice(e.cnames, NewNames(doh, at, rs[0]), Names(doh, next, rs[1..]), MAX_CNAME);
      CutTwice(e.addrs, NewAddresses(rs[0]), Addresses(rs[1..]), MAX_ADDR);
    }
  }

  // ---------- whole messages ----------

  /** A response: the two bytes after the ID hold the flags and the RCODE. */
  datatype Message = Message(flags: seq<byte>, questions: seq<Question>, answers: seq<Record>,
                             authority: seq<Record>, additional: seq<Record>)

  predicate GoodMessage(m: Message)
  {
    && |m.flags| == 2 && GoodQuestions(m.questions) && GoodRecords(m.answers)
    && GoodRecords(m.authority) && GoodRecords(m.additional)
    && |m.questions| < 0x1_0000 && |m.answers| < 0x1_0000 && |m.authority| < 0x1_0000 && |m.additional| < 0x1_0000
  }

  function HeaderBytes(m: Message): seq<byte>
    requires GoodMessage(m)
  {
    [0, 0] + (m.flags + (Bytes16(|m.questions|) + (Bytes16(|m.answers|) + (Bytes16(|m.authority|) + Bytes16(|m.additional|)))))
  }

  function SectionBytes(m: Message): seq<byte>
    requires GoodMessage(m)
  {
    QuestionsBytes(m.questions) + (RecordsBytes(m.answers) + (RecordsBytes(m.authority) + RecordsBytes(m.additional)))
  }

  /** A message with ID zero, which is what the client asked with. */
  function MessageBytes(m: Message): seq<byte>
    requires GoodMessage(m)
  {
    HeaderBytes(m) + SectionBytes(m)
  }

  /** Where the answers start. */
  function AnswersAt(m: Message): nat
    requires GoodMessage(m)
  {
    HEADER + |QuestionsBytes(m.questions)|
  }

  predicate HeaderFits(doh: seq<byte>, m: Message)
    requires GoodMessage(m)
  {
    && |doh| >= HEADER && doh[0] == 0 && doh[1] == 0 && doh[2..4] == m.flags
    && Word16(doh, 4) == |m.questions| && Word16(doh, 6) == |m.answers|
    && Word16(doh, 8) == |m.authority| && Word16(doh, 10) == |m.additional|
  }

  lemma TwoZeros(doh: seq<byte>)
    ensures At(doh, 0, [0, 0]) <==> |doh| >= 2 && doh[0] == 0 && doh[1] == 0
  {
    if |doh| >= 2 {
      assert doh[0..2] == [doh[0], doh[1]];
    }
  }

  lemma HeaderIsThere(doh: seq<byte>, m: Message)
    requires GoodMessage(m)
    ensures |HeaderBytes(m)| == HEADER && (At(doh, 0, HeaderBytes(m)) <==> HeaderFits(doh, m))
  {
    hide At, Bytes16, Word16, GoodQuestions, GoodRecords;
    var x5 := Bytes16(|m.additional|);
    var x4 := Bytes16(|m.authority|) + x5;
    var x3 := Bytes16(|m.answers|) + x4;
    var x2 := Bytes16(|m.questions|) + x3;
    CountLengths(m);
    TwoZeros(doh);
    AtSplit(doh, 0, [0, 0], m.flags + x2);
    AtSplit(doh, 2, m.flags, x2);
    AtSplit(doh, 4, Bytes16(|m.questions|), x3);
    AtSplit(doh, 6, Bytes16(|m.answers|), x4);
    AtSplit(doh, 8, Bytes16(|m.authority|), x5);
    AtMeans(doh, 2, m.flags);
    Word16At(doh, 4, |m.questions|);
    Word16At(doh, 6, |m.answers|);
    Word16At(doh, 8, |m.authority|);
    Word16At(doh, 10, |m.additional|);
  }

  lemma CountLengths(m: Message)
    requires GoodMessage(m)
    ensures |Bytes16(|m.questions|)| == 2 && |Bytes16(|m.answers|)| == 2
    ensures |Bytes16(|m.authority|)| == 2 && |Bytes16(|m.additional|)| == 2
  {
    hide GoodQuestions, GoodRecords;
  }

  /** Where the other sections start, and the end. */
  function AuthorityAt(m: Message): nat
    requires GoodMessage(m)
  {
    AnswersAt(m) + |RecordsBytes(m.answers)|
  }

  function AdditionalAt(m: Message): nat
    requires GoodMessage(m)
  {
    AuthorityAt(m) + |RecordsBytes(m.authority)|
  }

  predicate SectionsFit(doh: seq<byte>, m: Message)
    requires GoodMessage(m)
  {
    && At(doh, HEADER, QuestionsBytes(m.questions))
    && At(doh, AnswersAt(m), RecordsBytes(m.answers))
    && At(doh, AuthorityAt(m), RecordsBytes(m.authority))
    && At(doh, AdditionalAt(m), RecordsBytes(m.additional))
    && AdditionalAt(m) + |RecordsBytes(m.additional)| == |doh|
  }

  lemma AtWhole(doh: seq<byte>, x: seq<byte>)
    ensures doh == x <==> At(doh, 0, x) && |x| == |doh|
  {
  }

  lemma MessageIsThere(doh: seq<byte>, m: Message)
    requires GoodMessage(m)
    ensures doh == MessageBytes(m) <==> HeaderFits(doh, m) && SectionsFit(doh, m)
  {
    hide At, HeaderBytes, HeaderFits, GoodQuestions, GoodRecords, QuestionsBytes, RecordsBytes;
    var x4 := RecordsBytes(m.additional);
    var x3 := RecordsBytes(m.authority) + x4;
    var x2 := RecordsBytes(m.answers) + x3;
    HeaderIsThere(doh, m);
    AtWhole(doh, MessageBytes(m));
    AtSplit(doh, 0, HeaderBytes(m), SectionBytes(m));
    AtSplit(doh, HEADER, QuestionsBytes(m.questions), x2);
    AtSplit(doh, AnswersAt(m), RecordsBytes(m.answers), x3);
    AtSplit(doh, AuthorityAt(m), RecordsBytes(m.authority), x4);
  }

  /** The addresses, names and TTL after a message. */
  function Total(doh: seq<byte>, m: Message, e: Entry): Entry
    requires GoodMessage(m)
  {
    Entry(Cut(e.cnames + Names(doh, AnswersAt(m), m.answers), MAX_CNAME),
          Cut(e.addrs + Addresses(m.answers), MAX_ADDR),
          SmallestTtl(m.answers, e.ttl))
  }

  /** A message without error whose answers can all be taken, and after which there is something to use. */
  predicate IsResponse(doh: seq<byte>, m: Message, dnstype: nat, e: Entry)
  {
    && GoodMessage(m) && doh == MessageBytes(m) && m.flags[1] as nat % 16 == 0
    && AllAcceptable(doh, AnswersAt(m), m.answers, dnstype, e)
    && (LastType(m.answers, 0) == TYPE_NS || Total(doh, m, e).cnames != [] || Total(doh, m, e).addrs != [])
  }

  /** The verdict on a serialized message, section by section. */
  lemma SectionsDecode(doh: seq<byte>, m: Message, dnstype: nat, e: Entry)
    requires GoodMessage(m) && HeaderFits(doh, m) && SectionsFit(doh, m) && WithinLimits(e)
    ensures DecodeFrom(doh, AnswersAt(m), dnstype, e).0 == OK <==>
            && AllAcceptable(doh, AnswersAt(m), m.answers, dnstype, e)
            && (LastType(m.answers, 0) == TYPE_NS || Total(doh, m, e).cnames != [] || Total(doh, m, e).addrs != [])
    ensures DecodeFrom(doh, AnswersAt(m), dnstype, e).0 == OK ==> DecodeFrom(doh, AnswersAt(m), dnstype, e).1 == Total(doh, m, e)
  {
    hide At, GoodQuestions, GoodRecords, QuestionsBytes, RecordsBytes, Answers, Others, AllAcceptable, WithinLimits, Names,
      Addresses, SmallestTtl, Cut, AfterAll, Word16;
    AnswersAreTaken(doh, AnswersAt(m), m.answers, dnstype, 0, e);
    AfterAllIs(doh, AnswersAt(m), m.answers, e);
    RecordsAreSkipped(doh, AuthorityAt(m), m.authority);
    RecordsAreSkipped(doh, AdditionalAt(m), m.additional);
    if !AllAcceptable(doh, AnswersAt(m), m.answers, dnstype, e) {
      AnswersFailWithError(doh, |m.answers|, AnswersAt(m), dnstype, 0, e);
    }
  }

  /** An error in an answer is never OK. */
  lemma {:induction false} AnswersFailWithError(doh: seq<byte>, count: nat, index: nat, dnstype: nat, before: nat, e: Entry)
    ensures Answers(doh, count, index, dnstype, before, e).next != Err(OK)
    decreases count
  {
    hide AnswerAt;
    if count > 0 {
      AnswerFailsWithError(doh, index, dnstype, e);
      var a := AnswerAt(doh, index, dnstype, e);
      if a.next.Ok? {
        AnswersFailWithError(doh, count - 1, a.next.value, dnstype, a.rtype, a.e);
      }
    }
  }

  lemma {:induction false} SkipFailsWithError(doh: seq<byte>, index: nat)
    ensures Skip(doh, index) != Err(OK)
    decreases |doh| - index
  {
    if index < |doh| && 0 < doh[index] < RESERVED && index + 1 + doh[index] as nat <= |doh| {
      SkipFailsWithError(doh, index + 1 + doh[index] as nat);
    }
  }

  lemma AnswerFailsWithError(doh: seq<byte>, index: nat, dnstype: nat, e: Entry)
    ensures AnswerAt(doh, index, dnstype, e).next != Err(OK)
  {
    hide Skip, Rdata, Word16, Word32;
    SkipFailsWithError(doh, index);
  }

  /** A serialized response is decoded into exactly its addresses and names after the earlier ones, and the smallest TTL. */
  lemma DecodesResponses(doh: seq<byte>, m: Message, dnstype: nat, e: Entry)
    requires WithinLimits(e) && IsResponse(doh, m, dnstype, e)
    ensures Decode(doh, dnstype, e) == (OK, Total(doh, m, e))
  {
    hide DecodeFrom, GoodQuestions, GoodRecords, QuestionsBytes, Questions, Total, AllAcceptable, WithinLimits, LastType,
      MessageBytes, At, Word16;
    MessageIsThere(doh, m);
    SectionsDecode(doh, m, dnstype, e);
    QuestionsAreSkipped(doh, HEADER, m.questions);
    assert doh[2..4][1] == doh[3];
  }

  lemma {:induction false} QuestionsFailWithError(doh: seq<byte>, count: nat, index: nat)
    ensures Questions(doh, count, index) != Err(OK)
    decreases count
  {
    hide Skip;
    SkipFailsWithError(doh, index);
    if count > 0 && QuestionAt(doh, index).Ok? {
      QuestionsFailWithError(doh, count - 1, QuestionAt(doh, index).value);
    }
  }

  lemma {:induction false} OthersFailWithError(doh: seq<byte>, count: nat, index: nat)
    ensures Others(doh, count, index) != Err(OK)
    decreases count
  {
    hide Skip, Word16;
    SkipFailsWithError(doh, index);
    if count > 0 && OtherAt(doh, index).Ok? {
      OthersFailWithError(doh, count - 1, OtherAt(doh, index).value);
    }
  }

  /** What a decoder that says OK has gone through. */
  lemma DecodedParts(doh: seq<byte>, dnstype: nat, e: Entry) returns (q: nat, a: nat, ns: nat)
    requires Decode(doh, dnstype, e).0 == OK
    ensures |doh| >= HEADER && doh[0] == 0 && doh[1] == 0 && doh[3] as nat % 16 == 0
    ensures Questions(doh, Word16(doh, 4), HEADER) == Ok(q)
    ensures Answers(doh, Word16(doh, 6), q, dnstype, 0, e).next == Ok(a)
    ensures Others(doh, Word16(doh, 8), a) == Ok(ns) && Others(doh, Word16(doh, 10), ns) == Ok(|doh|)
    ensures Decode(doh, dnstype, e) == DecodeFrom(doh, q, dnstype, e)
  {
    hide Word16, Questions, Answers, Others;
    QuestionsFailWithError(doh, Word16(doh, 4), HEADER);
    q := Questions(doh, Word16(doh, 4), HEADER).value;
    AnswersFailWithError(doh, Word16(doh, 6), q, dnstype, 0, e);
    a := Answers(doh, Word16(doh, 6), q, dnstype, 0, e).next.value;
    OthersFailWithError(doh, Word16(doh, 8), a);
    ns := Others(doh, Word16(doh, 8), a).value;
    OthersFailWithError(doh, Word16(doh, 10), ns);
  }

  lemma CountsAreSmall(doh: seq<byte>)
    requires |doh| >= HEADER
    ensures Word16(doh, 4) < 0x1_0000 && Word16(doh, 6) < 0x1_0000 && Word16(doh, 8) < 0x1_0000 && Word16(doh, 10) < 0x1_0000
  {
  }

  /** Every message the decoder accepts is a serialized response. */
  lemma DecodedIsAResponse(doh: seq<byte>, dnstype: nat, e: Entry) returns (m: Message)
    requires WithinLimits(e) && Decode(doh, dnstype, e).0 == OK
    ensures IsResponse(doh, m, dnstype, e)
  {
    hide Decode, DecodeFrom, GoodQuestions, GoodRecords, QuestionsBytes, RecordsBytes, Questions, Answers, Others, Total,
      AllAcceptable, WithinLimits, LastType, MessageBytes, At, Word16;
    var q, a, ns := DecodedParts(doh, dnstype, e);
    CountsAreSmall(doh);
    var questions := SkippedAreQuestions(doh, HEADER, Word16(doh, 4));
    QuestionsAreSkipped(doh, HEADER, questions);
    AtEnd(doh, HEADER, QuestionsBytes(questions));
    var answers := TakenAreAnswers(doh, q, Word16(doh, 6), dnstype, 0, e);
    AnswersAreTaken(doh, q, answers, dnstype, 0, e);
    AtEnd(doh, q, RecordsBytes(answers));
    var authority := SkippedAreRecords(doh, a, Word16(doh, 8));
    RecordsAreSkipped(doh, a, authority);
    AtEnd(doh, a, RecordsBytes(authority));
    var additional := SkippedAreRecords(doh, ns, Word16(doh, 10));
    RecordsAreSkipped(doh, ns, additional);
    m := Message(doh[2..4], questions, answers, authority, additional);
    assert m.flags[1] == doh[3];
    MessageIsThere(doh, m);
    SectionsDecode(doh, m, dnstype, e);
  }

  /** The decoder accepts exactly the serialized responses. */
  lemma AcceptsExactlyResponses(doh: seq<byte>, dnstype: nat, e: Entry)
    requires WithinLimits(e)
    ensures Decode(doh, dnstype, e).0 == OK <==> exists m :: IsResponse(doh, m, dnstype, e)
  {
    hide Decode, IsResponse, WithinLimits;
    if Decode(doh, dnstype, e).0 == OK {
      var m := DecodedIsAResponse(doh, dnstype, e);
    }
    if m :| IsResponse(doh, m, dnstype, e) {
      DecodesResponses(doh, m, dnstype, e);
    }
  }
}
