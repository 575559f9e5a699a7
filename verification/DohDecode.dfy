/** The DNS response decoder (curl/lib/doh.c), section 4.1 of RFC 1035. */
module DohDecode {
  import opened Bytes
  import opened DohName

  const TYPE_A: nat := 1
  const TYPE_NS: nat := 2
  const TYPE_CNAME: nat := 5
  const TYPE_AAAA: nat := 28
  const TYPE_DNAME: nat := 39
  const CLASS_IN: nat := 1

  const MAX_ADDR: nat := 24
  const MAX_CNAME: nat := 4
  const HEADER: nat := 12

  datatype Address = V4(ip: seq<byte>) | V6(ip: seq<byte>)

  /** `struct dohentry`: what responses have brought so far. */
  datatype Entry = Entry(cnames: seq<seq<byte>>, addrs: seq<Address>, ttl: nat)

  /** `get16bit`. */
  function Word16(doh: seq<byte>, index: nat): nat
    requires index + 2 <= |doh|
  {
    doh[index] as nat * 256 + doh[index + 1] as nat
  }

  /** `get32bit`. */
  function Word32(doh: seq<byte>, index: nat): nat
    requires index + 4 <= |doh|
  {
    Word16(doh, index) * 65536 + Word16(doh, index + 2)
  }

  // ---------- one record ----------

  /** `store_a` and `store_aaaa`: addresses over the limit are ignored. */
  function StoreAddress(e: Entry, a: Address): Entry
  {
    if |e.addrs| < MAX_ADDR then e.(addrs := e.addrs + [a]) else e
  }

  /** `store_cname`: names over the limit are not even read. */
  function StoreCname(doh: seq<byte>, index: nat, e: Entry): (Code, Entry)
  {
    if |e.cnames| == MAX_CNAME then (OK, e) else
    var (code, name) := Read(doh, index, LOOPS, []);
    (code, e.(cnames := e.cnames + [name]))
  }

  function Rdata(doh: seq<byte>, rdlength: nat, rtype: nat, index: nat, e: Entry): (Code, Entry)
    requires index + rdlength <= |doh|
  {
    if rtype == TYPE_A then
      if rdlength != 4 then (RdataLen, e) else (OK, StoreAddress(e, V4(doh[index..index + 4])))
    else if rtype == TYPE_AAAA then
      if rdlength != 16 then (RdataLen, e) else (OK, StoreAddress(e, V6(doh[index..index + 16])))
    else if rtype == TYPE_CNAME then StoreCname(doh, index, e)
    else (OK, e)
  }

  /** What an answer leads to: the next index or an error, its type, and the entry afterwards. */
  datatype Answered = Answered(next: Result<nat>, rtype: nat, e: Entry)

  predicate Wanted(rtype: nat, dnstype: nat)
  {
    rtype == TYPE_CNAME || rtype == TYPE_DNAME || rtype == dnstype
  }

  /** The rest of an answer, from its TTL on. */
  function AnswerFromTtl(doh: seq<byte>, index: nat, rtype: nat, e: Entry): Answered
  {
    if |doh| < index + 4 then Answered(Err(OutOfRange), rtype, e) else
    var e1 := if Word32(doh, index) < e.ttl then e.(ttl := Word32(doh, index)) else e;
    if |doh| < index + 6 then Answered(Err(OutOfRange), rtype, e1) else
    var rdlength := Word16(doh, index + 4);
    if |doh| < index + 6 + rdlength then Answered(Err(OutOfRange), rtype, e1) else
    var (code, e2) := Rdata(doh, rdlength, rtype, index + 6, e1);
    Answered(if code != OK then Err(code) else Ok(index + 6 + rdlength), rtype, e2)
  }

  /** One turn of the answer loop. */
  function AnswerAt(doh: seq<byte>, index: nat, dnstype: nat, e: Entry): Answered
  {
    match Skip(doh, index)
    case Err(code) => Answered(Err(code), 0, e)
    case Ok(i) =>
      if |doh| < i + 2 then Answered(Err(OutOfRange), 0, e) else
      var rtype := Word16(doh, i);
      if !Wanted(rtype, dnstype) then Answered(Err(UnexpectedType), rtype, e)
      else if |doh| < i + 4 then Answered(Err(OutOfRange), rtype, e)
      else if Word16(doh, i + 2) != CLASS_IN then Answered(Err(UnexpectedClass), rtype, e)
      else AnswerFromTtl(doh, i + 4, rtype, e)
  }

  /** One turn of the loops over the other two sections, which are only skipped. */
  function OtherAt(doh: seq<byte>, index: nat): Result<nat>
  {
    match Skip(doh, index)
    case Err(code) => Err(code)
    case Ok(i) =>
      if |doh| < i + 8 then Err(OutOfRange)
      else if |doh| < i + 10 then Err(OutOfRange)
      else if |doh| < i + 10 + Word16(doh, i + 8) then Err(OutOfRange)
      else Ok(i + 10 + Word16(doh, i + 8))
  }

  function QuestionAt(doh: seq<byte>, index: nat): Result<nat>
  {
    match Skip(doh, index)
    case Err(code) => Err(code)
    case Ok(i) => if |doh| < i + 4 then Err(OutOfRange) else Ok(i + 4)
  }

  // ---------- the sections ----------

  function Questions(doh: seq<byte>, count: nat, index: nat): Result<nat>
  {
    if count == 0 then Ok(index) else
    var next := QuestionAt(doh, index);
    if next.Err? then next else Questions(doh, count - 1, next.value)
  }

  /** The answer loop; `rtype` is the type of the answer before. */
  function Answers(doh: seq<byte>, count: nat, index: nat, dnstype: nat, rtype: nat, e: Entry): Answered
    decreases count
  {
    if count == 0 then Answered(Ok(index), rtype, e) else
    var a := AnswerAt(doh, index, dnstype, e);
    if a.next.Err? then a else Answers(doh, count - 1, a.next.value, dnstype, a.rtype, a.e)
  }

  function Others(doh: seq<byte>, count: nat, index: nat): Result<nat>
  {
    if count == 0 then Ok(index) else
    var next := OtherAt(doh, index);
    if next.Err? then next else Others(doh, count - 1, next.value)
  }

  /** The sections after the questions. */
  function DecodeFrom(doh: seq<byte>, index: nat, dnstype: nat, e: Entry): (Code, Entry)
    requires |doh| >= HEADER
  {
    var a := Answers(doh, Word16(doh, 6), index, dnstype, 0, e);
    if a.next.Err? then (a.next.code, a.e) else
    var ns := Others(doh, Word16(doh, 8), a.next.value);
    if ns.Err? then (ns.code, a.e) else
    var ar := Others(doh, Word16(doh, 10), ns.value);
    if ar.Err? then (ar.code, a.e)
    else if ar.value != |doh| then (Malformat, a.e)
    else if a.rtype != TYPE_NS && a.e.cnames == [] && a.e.addrs == [] then (NoContent, a.e)
    else (OK, a.e)
  }

  /** `doh_decode`. */
  function Decode(doh: seq<byte>, dnstype: nat, e: Entry): (Code, Entry)
  {
    if |doh| < HEADER then (TooSmallBuffer, e)
    else if doh[0] != 0 || doh[1] != 0 then (BadId, e)
    else if doh[3] as nat % 16 != 0 then (BadRcode, e)
    else
      var q := Questions(doh, Word16(doh, 4), HEADER);
      if q.Err? then (q.code, e) else DecodeFrom(doh, q.value, dnstype, e)
  }
}
