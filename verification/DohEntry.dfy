/** `struct dohentry` of curl/lib/doh.c and the loops that fill it. */
module DohEntry {
  import opened Bytes
  import opened DohName
  import opened D = DohDecode

  const INT_MAX: nat := 0x7fff_ffff

  class DohEntry {
    const cname: array<seq<byte>>   // dynbufs
    const addr: array<Address>
    var numaddr: nat
    var numcname: nat
    var ttl: nat

    ghost predicate Valid()
      reads this, cname
    {
      && cname.Length == MAX_CNAME && addr.Length == MAX_ADDR
      && numaddr <= MAX_ADDR && numcname <= MAX_CNAME
      && forall i :: numcname <= i < MAX_CNAME ==> cname[i] == []
    }

    ghost function View(): (e: Entry)
      requires Valid()
      reads this, cname, addr
      ensures |e.cnames| == numcname && |e.addrs| == numaddr
    {
      Entry(cname[..numcname], addr[..numaddr], ttl)
    }

    /** `de_init`. */
    constructor ()
      ensures Valid() && View() == Entry([], [], INT_MAX) && fresh(cname) && fresh(addr)
    {
      cname := new seq<byte>[MAX_CNAME](_ => []);
      addr := new Address[MAX_ADDR](_ => V4([]));
      numaddr, numcname, ttl := 0, 0, INT_MAX;
    }

    /** `store_a` and `store_aaaa`. */
    method StoreAddress(a: Address)
      requires Valid()
      modifies this`numaddr, addr
      ensures Valid() && View() == D.StoreAddress(old(View()), a)
    {
      if numaddr < MAX_ADDR {
        addr[numaddr] := a;
        numaddr := numaddr + 1;
      }
    }

    /** `Curl_dyn_addn` on one of the name buffers; when the bytes do not fit the buffer is freed. */
    method AddToName(c: nat, x: seq<byte>) returns (ok: bool)
      requires c < cname.Length
      modifies cname
      ensures forall i :: 0 <= i < cname.Length && i != c ==> cname[i] == old(cname[i])
      ensures ok == Append(old(cname[c]), x).Ok?
      ensures cname[c] == if ok then old(cname[c]) + x else []
    {
      ok := |cname[c]| + |x| + 1 <= NAME_BUFFER;
      cname[c] := if ok then cname[c] + x else [];
    }

    method AddLabelToName(doh: seq<byte>, index: nat, length: nat, c: nat) returns (code: Code)
      requires c < cname.Length
      modifies cname
      ensures forall i :: 0 <= i < cname.Length && i != c ==> cname[i] == old(cname[i])
      ensures (code, cname[c]) == AddLabel(doh, index, length, old(cname[c]))
    {
      if |cname[c]| != 0 {
        var ok := AddToName(c, [DOT]);
        if !ok {
          return OutOfMem;
        }
      }
      if index + length > |doh| {
        return BadLabel;
      }
      var ok := AddToName(c, doh[index..index + length]);
      code := if ok then OK else OutOfMem;
    }

    /** The loop of `store_cname`, into buffer `c`. */
    method ReadName(doh: seq<byte>, start: nat, c: nat) returns (code: Code)
      requires c < cname.Length && cname[c] == []
      modifies cname
      ensures forall i :: 0 <= i < cname.Length && i != c ==> cname[i] == old(cname[i])
      ensures (code, cname[c]) == Read(doh, start, LOOPS, [])
    {
      hide Target, AddLabel;
      var index: nat, loop: nat := start, LOOPS;
      while true
        invariant 0 < loop <= LOOPS
        invariant forall i :: 0 <= i < cname.Length && i != c ==> cname[i] == old(cname[i])
        invariant Read(doh, index, loop, cname[c]) == Read(doh, start, LOOPS, [])
        decreases loop
      {
        if index >= |doh| {
          return OutOfRange;
        }
        var length := doh[index];
        if length >= COMPRESSED {
          if index + 1 >= |doh| {
            return OutOfRange;
          }
          index := Target(doh, index);
        } else if length >= RESERVED {
          return BadLabel;
        } else {
          index := index + 1;
          if length == 0 {
            return OK;
          }
          code := AddLabelToName(doh, index, length as nat, c);
          if code != OK {
            return;
          }
          index := index + length as nat;
        }
        loop := loop - 1;
        if loop == 0 {
          return LabelLoop;
        }
      }
    }

    method StoreCname(doh: seq<byte>, index: nat) returns (code: Code)
      requires Valid()
      modifies this`numcname, cname
      ensures Valid() && (code, View()) == D.StoreCname(doh, index, old(View()))
    {
      if numcname == MAX_CNAME {
        return OK;
      }
      var c := numcname;
      code := ReadName(doh, index, c);
      numcname := numcname + 1;
      assert cname[..numcname] == old(cname[..numcname]) + [cname[c]];
    }

    method Rdata(doh: seq<byte>, rdlength: nat, rtype: nat, index: nat) returns (code: Code)
      requires Valid() && index + rdlength <= |doh|
      modifies this`numaddr, this`numcname, cname, addr
      ensures Valid() && (code, View()) == D.Rdata(doh, rdlength, rtype, index, old(View()))
    {
      hide D.StoreAddress, D.StoreCname;
      code := OK;
      if rtype == TYPE_A {
        if rdlength != 4 {
          return RdataLen;
        }
        StoreAddress(V4(doh[index..index + 4]));
      } else if rtype == TYPE_AAAA {
        if rdlength != 16 {
          return RdataLen;
        }
        StoreAddress(V6(doh[index..index + 16]));
      } else if rtype == TYPE_CNAME {
        code := StoreCname(doh, index);
      }
    }
  }

  /** `skipqname`. */
  method SkipQname(doh: seq<byte>, start: nat) returns (r: Result<nat>)
    ensures r == Skip(doh, start)
  {
    var index := start;
    while true
      invariant Skip(doh, index) == Skip(doh, start)
      decreases |doh| - index
    {
      if |doh| < index + 1 {
        return Err(OutOfRange);
      }
      var length := doh[index];
      if length >= COMPRESSED {
        if |doh| < index + 2 {
          return Err(OutOfRange);
        }
        return Ok(index + 2);
      }
      if length >= RESERVED {
        return Err(BadLabel);
      }
      if |doh| < index + 1 + length as nat {
        return Err(OutOfRange);
      }
      index := index + 1 + length as nat;
      if length == 0 {
        return Ok(index);
      }
    }
  }

  /** One turn of the answer loop of `doh_decode`. */
  method DecodeAnswer(doh: seq<byte>, start: nat, dnstype: nat, d: DohEntry) returns (next: Result<nat>, rtype: nat)
    requires d.Valid()
    modifies d, d.cname, d.addr
    ensures d.Valid() && Answered(next, rtype, d.View()) == AnswerAt(doh, start, dnstype, old(d.View()))
  {
    hide Skip, Word16, Word32, Rdata;
    rtype := 0;
    next := SkipQname(doh, start);
    if next.Err? {
      return;
    }
    var index := next.value;
    if |doh| < index + 2 {
      return Err(OutOfRange), 0;
    }
    rtype := Word16(doh, index);
    if rtype != TYPE_CNAME && rtype != TYPE_DNAME && rtype != dnstype {
      return Err(UnexpectedType), rtype;
    }
    index := index + 2;
    if |doh| < index + 2 {
      return Err(OutOfRange), rtype;
    }
    if CLASS_IN != Word16(doh, index) {
      return Err(UnexpectedClass), rtype;
    }
    index := index + 2;
    if |doh| < index + 4 {
      return Err(OutOfRange), rtype;
    }
    next := DecodeFromTtl(doh, index, rtype, d);
  }

  method DecodeFromTtl(doh: seq<byte>, start: nat, rtype: nat, d: DohEntry) returns (next: Result<nat>)
    requires d.Valid() && start + 4 <= |doh|
    modifies d, d.cname, d.addr
    ensures d.Valid() && Answered(next, rtype, d.View()) == AnswerFromTtl(doh, start, rtype, old(d.View()))
  {
    hide Word16, Word32, Rdata;
    var index := start;
    var ttl := Word32(doh, index);
    if ttl < d.ttl {
      d.ttl := ttl;
    }
    index := index + 4;
    if |doh| < index + 2 {
      return Err(OutOfRange);
    }
    var rdlength := Word16(doh, index);
    index := index + 2;
    if |doh| < index + rdlength {
      return Err(OutOfRange);
    }
    var code := d.Rdata(doh, rdlength, rtype, index);
    next := if code != OK then Err(code) else Ok(index + rdlength);
  }

  /** The loops over the authority and additional sections. */
  method SkipRecords(doh: seq<byte>, start: nat, count: nat) returns (r: Result<nat>)
    ensures r == Others(doh, count, start)
  {
    hide Skip, Word16;
    var left, index := count, start;
    while left != 0
      invariant Others(doh, left, index) == Others(doh, count, start)
    {
      r := SkipQname(doh, index);
      if r.Err? {
        return;
      }
      index := r.value;
      if |doh| < index + 8 {
        return Err(OutOfRange);
      }
      index := index + 2 + 2 + 4;
      if |doh| < index + 2 {
        return Err(OutOfRange);
      }
      var rdlength := Word16(doh, index);
      index := index + 2;
      if |doh| < index + rdlength {
        return Err(OutOfRange);
      }
      index := index + rdlength;
      left := left - 1;
    }
    r := Ok(index);
  }

  /** `doh_decode`. */
  method DohDecode(doh: seq<byte>, dnstype: nat, d: DohEntry) returns (code: Code)
    requires d.Valid()
    modifies d, d.cname, d.addr
    ensures d.Valid() && (code, d.View()) == Decode(doh, dnstype, old(d.View()))
  {
    hide Questions, Answers, Others, Word16;
    if |doh| < HEADER {
      return TooSmallBuffer;
    }
    if doh[0] != 0 || doh[1] != 0 {
      return BadId;
    }
    if doh[3] as nat % 16 != 0 {
      return BadRcode;
    }
    var q := SkipQuestions(doh, Word16(doh, 4));
    if q.Err? {
      return q.code;
    }
    code := DecodeSections(doh, q.value, dnstype, d);
  }

  method SkipQuestions(doh: seq<byte>, qdcount: nat) returns (r: Result<nat>)
    ensures r == Questions(doh, qdcount, HEADER)
  {
    hide Skip;
    var left: nat, index: nat := qdcount, HEADER;
    while left != 0
      invariant Questions(doh, left, index) == Questions(doh, qdcount, HEADER)
    {
      r := SkipQname(doh, index);
      if r.Err? {
        return;
      }
      index := r.value;
      if |doh| < index + 4 {
        return Err(OutOfRange);
      }
      index := index + 4;
      left := left - 1;
    }
    r := Ok(index);
  }

  method DecodeAnswers(doh: seq<byte>, start: nat, ancount: nat, dnstype: nat, d: DohEntry)
    returns (r: Result<nat>, rtype: nat)
    requires d.Valid()
    modifies d, d.cname, d.addr
    ensures d.Valid() && Answered(r, rtype, d.View()) == Answers(doh, ancount, start, dnstype, 0, old(d.View()))
  {
    hide AnswerAt;
    var left, index := ancount, start;
    rtype := 0;
    while left != 0
      invariant d.Valid()
      invariant Answers(doh, left, index, dnstype, rtype, d.View()) == Answers(doh, ancount, start, dnstype, 0, old(d.View()))
    {
      var next, t := DecodeAnswer(doh, index, dnstype, d);
      if next.Err? {
        return next, t;
      }
      index, rtype := next.value, t;
      left := left - 1;
    }
    r := Ok(index);
  }

  /** The part of `doh_decode` after the questions. */
  method DecodeSections(doh: seq<byte>, start: nat, dnstype: nat, d: DohEntry) returns (code: Code)
    requires d.Valid() && |doh| >= HEADER
    modifies d, d.cname, d.addr
    ensures d.Valid() && (code, d.View()) == DecodeFrom(doh, start, dnstype, old(d.View()))
  {
    hide Questions, Answers, Others, Word16;
    var an, rtype := DecodeAnswers(doh, start, Word16(doh, 6), dnstype, d);
    if an.Err? {
      return an.code;
    }
    var ns := SkipRecords(doh, an.value, Word16(doh, 8));
    if ns.Err? {
      return ns.code;
    }
    var ar := SkipRecords(doh, ns.value, Word16(doh, 10));
    if ar.Err? {
      return ar.code;
    }
    if ar.value != |doh| {
      return Malformat;
    }
    if rtype != TYPE_NS && d.numcname == 0 && d.numaddr == 0 {
      return NoContent;
    }
    code := OK;
  }
}
