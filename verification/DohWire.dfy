/** Queries and answers of curl/lib/doh.c byte by byte, in the numbers of section 4.1 of RFC 1035 and section 3.2 of
    RFC 3596: nothing here speaks through the serializers or the named constants of the other DoH modules. */
module DohWire {
  import opened Bytes
  import opened DohName
  import opened DohEncode
  import D = DohDecode

  // ---------- a query ----------

  /** A label begins at `k`. */
  ghost predicate BeginsLabel(host: Host, k: nat)
  {
    k < |host| && (k == 0 || host[k - 1] == '.' as byte)
  }

  /** There are `n` bytes from `k` to the next dot, or to the end. */
  ghost predicate RunsTo(host: Host, k: nat, n: nat)
  {
    k + n <= |host| && (forall j :: k <= j < k + n ==> host[j] != '.' as byte) && (k + n < |host| ==> host[k + n] == '.' as byte)
  }

  /** The name of a query: every byte of the host one place further, with the length of the label that follows where a
      dot stood, the length of the first label in front, and a zero at the end. */
  ghost predicate NameOf(host: Host, w: seq<byte>)
  {
    && |w| == |host| + (if host != [] && host[|host| - 1] == '.' as byte then 0 else 1) + 1
    && (forall k: nat :: k < |host| && host[k] != '.' as byte ==> w[k + 1] == host[k])
    && (forall k: nat :: BeginsLabel(host, k) ==> 0 < w[k] < 64 && RunsTo(host, k, w[k] as nat))
    && w[|w| - 1] == 0
  }

  lemma LabelRuns(host: Host)
    requires host != []
    ensures RunsTo(host, 0, FirstDot(host))
  {
    hide FirstDot;
    assert forall j :: 0 <= j < FirstDot(host) ==> host[j] in host[..FirstDot(host)];
  }

  /** The labels on the wire, without the zero at the end. */
  lemma {:induction false} LabelsOnTheWire(host: Host)
    requires GoodLabels(Labels(host)) && host != []
    ensures NameOf(host, LabelsBytes(Labels(host)) + [0])
    decreases |host|
  {
    hide Labels, LabelsBytes, FirstDot, NameOf, RunsTo, TrimDot;
    var n, rest := FirstDot(host), AfterDot(host);
    LabelsLength(host);
    FirstLabel(host);
    GoodTail(Labels(host));
    LabelRuns(host);
    OneMoreLabel(Labels(host));
    if rest == [] {
      NoLabels();
      assert LabelBytes(host[..n]) + [] + [0] == [n as byte] + host[..n] + [0];
      LastOnTheWire(host, n);
    } else {
      LabelsOnTheWire(rest);
      var w := LabelsBytes(Labels(rest)) + [0];
      assert LabelBytes(host[..n]) + LabelsBytes(Labels(rest)) + [0] == [n as byte] + host[..n] + w;
      NextOnTheWire(host, n, w);
    }
  }

  lemma OneMoreLabel(labels: seq<Label>)
    requires GoodLabels(labels) && labels != []
    ensures GoodLabel(labels[0]) && GoodLabels(labels[1..])
    ensures LabelsBytes(labels) == LabelBytes(labels[0]) + LabelsBytes(labels[1..])
  {
    GoodTail(labels);
  }

  lemma NoLabels()
    ensures Labels([]) == [] && LabelsBytes([]) == []
  {
  }

  lemma LastOnTheWire(host: Host, n: nat)
    requires 0 < n < 64 && RunsTo(host, 0, n) && n <= |host| <= n + 1
    ensures NameOf(host, [n as byte] + host[..n] + [0])
  {
    var w := [n as byte] + host[..n] + [0];
    assert w[0] == n as byte;
    forall k: nat | k < |host| && host[k] != '.' as byte ensures w[k + 1] == host[k] {
      assert k < n;
    }
    forall k: nat | BeginsLabel(host, k) ensures k == 0 {
      if k > 0 {
        assert false;
      }
    }
  }

  lemma NextOnTheWire(host: Host, n: nat, v: seq<byte>)
    requires 0 < n < 64 && RunsTo(host, 0, n) && n + 1 < |host| && NameOf(host[n + 1..], v)
    ensures NameOf(host, [n as byte] + host[..n] + v)
  {
    var w, rest := [n as byte] + host[..n] + v, host[n + 1..];
    assert w[0] == n as byte && w[|w| - 1] == v[|v| - 1];
    assert rest[|rest| - 1] == host[|host| - 1];
    forall k: nat | k < |host| && host[k] != '.' as byte ensures w[k + 1] == host[k] {
      if k > n {
        assert rest[k - n - 1] == host[k] && w[k + 1] == v[k - n];
      }
    }
    forall k: nat | BeginsLabel(host, k) ensures 0 < w[k] < 64 && RunsTo(host, k, w[k] as nat) {
      if k > n {
        LaterLabel(host, n, k, v);
        assert w[k] == v[k - n - 1];
      } else if k > 0 {
        assert false;
      }
    }
  }

  lemma LaterLabel(host: Host, n: nat, k: nat, v: seq<byte>)
    requires n < k < |host| && host[n] == '.' as byte && BeginsLabel(host, k) && NameOf(host[n + 1..], v)
    ensures k - n - 1 < |v| && 0 < v[k - n - 1] < 64 && RunsTo(host, k, v[k - n - 1] as nat)
  {
    var rest := host[n + 1..];
    assert BeginsLabel(rest, k - n - 1);
    var m := v[k - n - 1] as nat;
    assert RunsTo(rest, k - n - 1, m);
    forall j | k <= j < k + m ensures host[j] != '.' as byte {
      assert host[j] == rest[j - n - 1];
    }
    if k + m < |host| {
      assert host[k + m] == rest[k - n - 1 + m];
    }
  }

  /** A query: identifier 0, the bit that asks for recursion, one question, then the name, the type and class IN. */
  lemma QueryBytes(host: Host, dnstype: nat, len: nat)
    requires |host| > 0 && dnstype < 0x1_0000 && Encode(host, dnstype, len).Ok?
    ensures var doh := Encode(host, dnstype, len).value; var n := |doh|;
            && n >= 18 && doh[..12] == [0, 0, 1, 0, 0, 1, 0, 0, 0, 0, 0, 0]
            && NameOf(host, doh[12..n - 4])
            && doh[n - 4] as nat * 256 + doh[n - 3] as nat == dnstype && doh[n - 2] == 0 && doh[n - 1] == 1
  {
    hide Labels, LabelsBytes, GoodLabels, NameOf;
    var labels := Labels(host);
    LabelsOnTheWire(host);
    LabelsLength(host);
    var name := LabelsBytes(labels) + [0];
    var doh, n := Query(labels, dnstype), |Query(labels, dnstype)|;
    assert doh == QueryHeader() + name + QueryTail(dnstype);
    assert doh[12..n - 4] == name && doh[..12] == QueryHeader() && doh[n - 4..] == QueryTail(dnstype);
    assert doh[n - 4] == doh[n - 4..][0] && doh[n - 3] == doh[n - 4..][1] && doh[n - 2] == doh[n - 4..][2] && doh[n - 1] == doh[n - 4..][3];
  }

  // ---------- which names have a query ----------

  /** One of the 64 bytes from `k` on is a dot. */
  ghost predicate HasDot(host: Host, k: nat)
  {
    exists j: nat :: k <= j < k + 64 && j < |host| && host[j] == '.' as byte
  }

  /** No label is empty, except one after a dot at the end, and no 64 bytes in a row are without a dot. */
  ghost predicate Encodable(host: Host)
  {
    && host != [] && host[0] != '.' as byte
    && (forall k: nat :: k + 1 < |host| && host[k] == '.' as byte ==> host[k + 1] != '.' as byte)
    && forall k: nat :: k + 64 <= |host| ==> HasDot(host, k)
  }

  lemma {:induction false} LabelsAreGood(host: Host)
    requires host != []
    ensures GoodLabels(Labels(host)) <==> Encodable(host)
    decreases |host|
  {
    hide Labels, FirstDot, Encodable;
    var n, rest := FirstDot(host), AfterDot(host);
    FirstLabel(host);
    LabelRuns(host);
    GoodParts(Labels(host));
    if rest == [] {
      NoLabels();
      OneLabel(host, n);
    } else {
      LabelsAreGood(rest);
      MoreLabels(host, n);
    }
  }

  lemma GoodParts(labels: seq<Label>)
    requires labels != []
    ensures GoodLabels(labels) <==> GoodLabel(labels[0]) && GoodLabels(labels[1..])
  {
    assert labels == [labels[0]] + labels[1..];
  }

  lemma OneLabel(host: Host, n: nat)
    requires host != [] && RunsTo(host, 0, n) && n <= |host| <= n + 1
    ensures Encodable(host) <==> 0 < n < 64
  {
    if n >= 64 {
      assert !HasDot(host, 0);
    }
    if n < 64 {
      forall k: nat | k + 64 <= |host| ensures HasDot(host, k) {
        assert host[63] == '.' as byte;
      }
    }
  }

  lemma MoreLabels(host: Host, n: nat)
    requires RunsTo(host, 0, n) && n + 1 < |host|
    ensures Encodable(host) <==> 0 < n < 64 && Encodable(host[n + 1..])
  {
    var rest := host[n + 1..];
    assert HasDot(host, 0) ==> n < 64;
    if Encodable(host) {
      forall k: nat | k + 64 <= |rest| ensures HasDot(rest, k) {
        assert HasDot(host, n + 1 + k);
        var j: nat :| n + 1 + k <= j < n + 1 + k + 64 && j < |host| && host[j] == '.' as byte;
        assert rest[j - n - 1] == host[j];
      }
      assert host[n] == '.' as byte && rest[0] == host[n + 1];
    }
    if 0 < n < 64 && Encodable(rest) {
      forall k: nat | k + 64 <= |host| ensures HasDot(host, k) {
        if k <= n {
          assert host[n] == '.' as byte;
        } else {
          assert HasDot(rest, k - n - 1);
          var j: nat :| k - n - 1 <= j < k - n - 1 + 64 && j < |rest| && rest[j] == '.' as byte;
          assert host[j + n + 1] == rest[j];
        }
      }
      forall k: nat | k + 1 < |host| && host[k] == '.' as byte ensures host[k + 1] != '.' as byte {
        assert host[n + 1] == rest[0];
        if k > n {
          assert host[k] == rest[k - n - 1] && host[k + 1] == rest[k - n];
        }
      }
    }
  }

  /** A query is made exactly for the encodable names of at most 254 bytes, one more with a dot at the end, if the buffer
      has room; otherwise the length is refused first, then the buffer, then the name. */
  lemma EncodesExactly(host: Host, dnstype: nat, len: nat)
    requires |host| > 0
    ensures var size := |host| + (if host[|host| - 1] == '.' as byte then 17 else 18); var r := Encode(host, dnstype, len);
            && (size > 272 ==> r == Err(NameTooLong))
            && (size <= 272 && len < size ==> r == Err(TooSmallBuffer))
            && (size <= 272 && len >= size && !Encodable(host) ==> r == Err(BadLabel))
            && (size <= 272 && len >= size && Encodable(host) ==> r.Ok? && |r.value| == size)
  {
    hide Labels, LabelsBytes, GoodLabels, Encodable;
    LabelsAreGood(host);
    if Encode(host, dnstype, len).Ok? {
      QueryReadsBack(host, dnstype, len);
    }
  }

  // ---------- a name read ----------

  /** What the first byte of a name means to the two readers: 0 is the end, up to 63 a label of that length, from 192 on
      the upper six bits of an offset, and between these an error. */
  lemma NameByteRule(doh: seq<byte>, index: nat, loop: nat, name: seq<byte>)
    requires index < |doh| && loop > 0
    ensures var b, left := doh[index] as nat, |doh| - index;
            var dot: seq<byte> := if name == [] then [] else ['.' as byte];
            && (b == 0 ==> Skip(doh, index) == Ok(index + 1) && Read(doh, index, loop, name) == (OK, name))
            && (0 < b < 64 ==>
                  && Skip(doh, index) == (if left <= b then Err(OutOfRange) else Skip(doh, index + 1 + b))
                  && (left > b && |name + dot| + b <= 255 ==>
                        Read(doh, index, loop, name) ==
                        Read(doh, index + 1 + b, loop - 1, name + dot + doh[index + 1..index + 1 + b]))
                  && (left <= b && |name + dot| <= 255 ==> Read(doh, index, loop, name).0 == BadLabel)
                  && (|name + dot| > 255 || (left > b && |name + dot| + b > 255) ==>
                        Read(doh, index, loop, name).0 == OutOfMem))
            && (64 <= b < 192 ==> Skip(doh, index) == Err(BadLabel) && Read(doh, index, loop, name).0 == BadLabel)
            && (192 <= b ==>
                  && Skip(doh, index) == (if left < 2 then Err(OutOfRange) else Ok(index + 2))
                  && Read(doh, index, loop, name) ==
                     if left < 2 then (OutOfRange, name)
                     else Read(doh, (b - 192) * 256 + doh[index + 1] as nat, loop - 1, name))
  {
    var b := doh[index] as nat;
    if 192 <= b {
      assert Low6(doh[index]) == b - 192;
    }
    if 0 < b < 64 && name == [] {
      assert name + [] == name;
    }
  }

  // ---------- an answer read ----------

  function Word(doh: seq<byte>, i: nat): nat
    requires i + 1 < |doh|
  {
    doh[i] as nat * 256 + doh[i + 1] as nat
  }

  /** An answer whose name ends before `i`: types 5 and 39 and the one asked for are taken, in class 1 only. The smallest
      TTL is kept. Four bytes of type 1 and sixteen of type 28 are addresses, of which 24 are kept; the name in a record
      of type 5 is read, unless there are four already. */
  lemma AnswerRule(doh: seq<byte>, index: nat, i: nat, dnstype: nat, e: D.Entry)
    requires Skip(doh, index) == Ok(i) && i + 10 <= |doh|
    ensures var a := D.AnswerAt(doh, index, dnstype, e); var rtype, len := Word(doh, i), Word(doh, i + 8);
            var ttl := ((doh[i + 4] as nat * 256 + doh[i + 5] as nat) * 256 + doh[i + 6] as nat) * 256 + doh[i + 7] as nat;
            var kept := D.Entry(e.cnames, e.addrs, if ttl < e.ttl then ttl else e.ttl);
            a.rtype == rtype &&
            if rtype != 5 && rtype != 39 && rtype != dnstype then a.next == Err(UnexpectedType) && a.e == e
            else if doh[i + 2] != 0 || doh[i + 3] != 1 then a.next == Err(UnexpectedClass) && a.e == e
            else if i + 10 + len > |doh| then a.next == Err(OutOfRange) && a.e == kept
            else
              var data := doh[i + 10..i + 10 + len];
              && (rtype == 1 && len == 4 ==>
                    && a.next == Ok(i + 10 + len)
                    && a.e == kept.(addrs := if |e.addrs| < 24 then e.addrs + [D.V4(data)] else e.addrs))
              && (rtype == 28 && len == 16 ==>
                    && a.next == Ok(i + 10 + len)
                    && a.e == kept.(addrs := if |e.addrs| < 24 then e.addrs + [D.V6(data)] else e.addrs))
              && ((rtype == 1 && len != 4) || (rtype == 28 && len != 16) ==> a.next == Err(RdataLen) && a.e == kept)
              && (rtype == 5 && |e.cnames| != 4 ==>
                    var (code, name) := Read(doh, i + 10, 128, []);
                    a.next == (if code == OK then Ok(i + 10 + len) else Err(code)) && a.e == kept.(cnames := e.cnames + [name]))
              && (rtype == 5 && |e.cnames| == 4 ==> a.next == Ok(i + 10 + len) && a.e == kept)
              && (rtype !in {1, 5, 28} ==> a.next == Ok(i + 10 + len) && a.e == kept)
  {
    hide Skip, Read;
  }

  /** An answer that is cut off: its type is looked at when it is there, its class then, and its TTL is still kept when only
      the length is missing. */
  lemma CutAnswerRule(doh: seq<byte>, index: nat, i: nat, dnstype: nat, e: D.Entry)
    requires Skip(doh, index) == Ok(i) && |doh| < i + 10
    ensures var a := D.AnswerAt(doh, index, dnstype, e);
            if |doh| < i + 2 then a.next == Err(OutOfRange) && a.e == e
            else if Word(doh, i) !in {5, 39, dnstype} then a.next == Err(UnexpectedType) && a.e == e
            else if i + 4 <= |doh| && (doh[i + 2] != 0 || doh[i + 3] != 1) then a.next == Err(UnexpectedClass) && a.e == e
            else
              && a.next == Err(OutOfRange)
              && (|doh| < i + 8 ==> a.e == e)
              && (|doh| >= i + 8 ==>
                    var ttl := ((doh[i + 4] as nat * 256 + doh[i + 5] as nat) * 256 + doh[i + 6] as nat) * 256 + doh[i + 7] as nat;
                    a.e == D.Entry(e.cnames, e.addrs, if ttl < e.ttl then ttl else e.ttl))
  {
    hide Skip, Read;
  }

  /** A response whose sections fill it is taken if it brought a name or an address, or if its last answer was of
      type 2. */
  lemma ContentRule(doh: seq<byte>, index: nat, dnstype: nat, e: D.Entry)
    requires |doh| >= 12 && D.Answers(doh, Word(doh, 6), index, dnstype, 0, e).next.Ok?
    requires var after := D.Answers(doh, Word(doh, 6), index, dnstype, 0, e).next.value;
             var ns := D.Others(doh, Word(doh, 8), after);
             ns.Ok? && D.Others(doh, Word(doh, 10), ns.value) == Ok(|doh|)
    ensures var a := D.Answers(doh, Word(doh, 6), index, dnstype, 0, e);
            D.DecodeFrom(doh, index, dnstype, e) ==
            (if |a.e.cnames| + |a.e.addrs| > 0 || a.rtype == 2 then OK else NoContent, a.e)
  {
    hide D.Answers, D.Others;
  }
}
