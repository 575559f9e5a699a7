/** The DNS query encoder (curl/lib/doh.c) and its round trip with the name readers, section 4.1 of RFC 1035. */
module DohEncode {
  import opened Bytes
  import opened DohName

  /** A host name as a C string of bytes. */
  type Host = seq<byte>

  const LONGEST_NAME: nat := 256   // bytes of a QNAME
  const HEADER: nat := 12

  /** `strchr(s, '.')`, or the end of the string. */
  function FirstDot(s: Host): (n: nat)
    ensures n <= |s| && (n < |s| ==> s[n] == DOT) && DOT !in s[..n]
  {
    if s == [] || s[0] == DOT then 0 else
    var n := FirstDot(s[1..]);
    assert s[..1 + n] == [s[0]] + s[1..][..n];
    1 + n
  }

  function AfterDot(s: Host): Host
  {
    if FirstDot(s) < |s| then s[FirstDot(s) + 1..] else []
  }

  /** What stands between the dots; a dot at the end ends the last label. */
  function Labels(host: Host): seq<Label>
    decreases |host|
  {
    if host == [] then [] else [host[..FirstDot(host)]] + Labels(AfterDot(host))
  }

  function ExpectedLength(host: Host): nat
    requires |host| > 0
  {
    HEADER + 1 + |host| + 4 + if host[|host| - 1] != DOT then 1 else 0
  }

  /** RD set, one question, nothing else: section 4.1.1 of RFC 1035. */
  function QueryHeader(): seq<byte>
  {
    [0, 0, 1, 0, 0, 1, 0, 0, 0, 0, 0, 0]
  }

  function QueryTail(dnstype: nat): seq<byte>
  {
    [(dnstype / 256 % 256) as byte, (dnstype % 256) as byte, 0, 1]
  }

  function Query(labels: seq<Label>, dnstype: nat): seq<byte>
    requires GoodLabels(labels)
  {
    QueryHeader() + NameBytes(WireName(labels, Root)) + QueryTail(dnstype)
  }

  /** `doh_encode` into a buffer of `len` bytes. */
  function Encode(host: Host, dnstype: nat, len: nat): Result<seq<byte>>
    requires |host| > 0
  {
    if ExpectedLength(host) > LONGEST_NAME + 16 then Err(NameTooLong)
    else if len < ExpectedLength(host) then Err(TooSmallBuffer)
    else if !GoodLabels(Labels(host)) then Err(BadLabel)
    else Ok(Query(Labels(host), dnstype))
  }

  // ---------- labels and text ----------

  /** The host without its trailing dot. */
  function TrimDot(host: Host): Host
  {
    if host != [] && host[|host| - 1] == DOT then host[..|host| - 1] else host
  }

  lemma HostParts(host: Host)
    requires host != []
    ensures AfterDot(host) == [] ==> TrimDot(host) == host[..FirstDot(host)]
    ensures AfterDot(host) != [] ==> TrimDot(host) == host[..FirstDot(host)] + [DOT] + TrimDot(AfterDot(host))
  {
    hide FirstDot;
    var n, rest := FirstDot(host), AfterDot(host);
    if rest == [] {
      assert n == |host| ==> host[..n] == host && host[|host| - 1] in host[..n];
    } else {
      assert rest == host[n + 1..] && rest[|rest| - 1] == host[|host| - 1];
      SplitAtDot(host, n, |host|);
      SplitAtDot(host, n, |host| - 1);
      assert host[..|host|] == host && host[n + 1..|host| - 1] == rest[..|rest| - 1];
    }
  }

  lemma SplitAtDot(host: Host, n: nat, k: nat)
    requires n < k <= |host| && host[n] == DOT
    ensures host[..k] == host[..n] + [DOT] + host[n + 1..k]
  {
  }

  lemma GoodTail(labels: seq<Label>)
    requires GoodLabels(labels) && labels != []
    ensures GoodLabel(labels[0]) && GoodLabels(labels[1..])
  {
  }

  /** Every label and its dot are as long on the wire as in the text. */
  lemma {:induction false} LabelsLength(host: Host)
    requires GoodLabels(Labels(host)) && host != []
    ensures |LabelsBytes(Labels(host))| == |TrimDot(host)| + 1
    decreases |host|
  {
    var rest := AfterDot(host);
    HostParts(host);
    assert Labels(host)[1..] == Labels(rest);
    GoodTail(Labels(host));
    if rest != [] {
      LabelsLength(rest);
    }
  }

  lemma Regroup(a: seq<byte>, b: seq<byte>, c: seq<byte>, d: seq<byte>)
    ensures a + b + c + d == a + (b + c + d)
  {
  }

  lemma JoinOne(name: seq<byte>, labels: seq<Label>)
    requires labels != []
    ensures JoinOnto(name, labels) == JoinOnto(Dotted(name) + labels[0], labels[1..])
  {
  }

  lemma FirstLabel(host: Host)
    requires host != []
    ensures Labels(host) != [] && Labels(host)[0] == host[..FirstDot(host)] && Labels(host)[1..] == Labels(AfterDot(host))
  {
  }

  /** Dots put back between the labels of a host give the host. */
  lemma {:induction false} JoinLabels(host: Host, name: seq<byte>)
    requires GoodLabels(Labels(host)) && host != []
    ensures JoinOnto(name, Labels(host)) == Dotted(name) + TrimDot(host)
    decreases |host|
  {
    hide Labels, TrimDot, JoinOnto;
    var rest := AfterDot(host);
    var l := host[..FirstDot(host)];
    HostParts(host);
    FirstLabel(host);
    GoodTail(Labels(host));
    JoinOne(name, Labels(host));
    var sofar := Dotted(name) + l;
    if rest != [] {
      JoinLabels(rest, sofar);
      Regroup(Dotted(name), l, [DOT], TrimDot(rest));
    } else {
      JoinNothing(sofar);
    }
  }

  lemma JoinNothing(name: seq<byte>)
    ensures Labels([]) == [] && JoinOnto(name, Labels([])) == name
  {
  }

  /** And the labels of a text made of labels are those labels. */
  lemma {:induction false} LabelsOfJoin(labels: seq<Label>)
    requires GoodLabels(labels) && forall l :: l in labels ==> DOT !in l
    ensures Labels(JoinOnto([], labels)) == labels
    decreases |labels|
  {
    JoinNothing([]);
    hide JoinOnto, FirstDot, AfterDot;
    if labels != [] {
      var l, rest := labels[0], labels[1..];
      GoodTail(labels);
      JoinOne([], labels);
      assert Dotted([]) + l == l;
      if rest == [] {
        JoinNothing(l);
        LabelsSplit(l, []);
        assert l + [] == l;
      } else {
        JoinAfter(l, rest);
        LabelsOfJoin(rest);
        LabelsSplit(l, [DOT] + JoinOnto([], rest));
        assert l + [DOT] + JoinOnto([], rest) == l + ([DOT] + JoinOnto([], rest));
      }
    }
  }

  /** The first label of a text and the labels after its dot. */
  lemma LabelsSplit(l: Label, rest: Host)
    requires DOT !in l && l + rest != [] && (rest != [] ==> rest[0] == DOT)
    ensures Labels(l + rest) == [l] + Labels(if rest == [] then [] else rest[1..])
  {
    hide Labels, FirstDot, AfterDot;
    FirstDotIs(l, rest);
    FirstLabel(l + rest);
    assert Labels(l + rest) == [Labels(l + rest)[0]] + Labels(l + rest)[1..];
  }

  lemma {:induction false} FirstDotIs(l: Label, rest: Host)
    requires DOT !in l && (rest != [] ==> rest[0] == DOT)
    ensures FirstDot(l + rest) == |l| && (l + rest)[..|l|] == l
    ensures AfterDot(l + rest) == if rest == [] then [] else rest[1..]
  {
    if l == [] {
      assert l + rest == rest;
    } else {
      assert (l + rest)[1..] == l[1..] + rest;
      FirstDotIs(l[1..], rest);
    }
  }

  lemma {:induction false} JoinAfter(name: seq<byte>, labels: seq<Label>)
    requires name != [] && labels != [] && GoodLabels(labels)
    ensures JoinOnto(name, labels) == name + [DOT] + JoinOnto([], labels)
    decreases |labels|
  {
    hide JoinOnto;
    GoodTail(labels);
    JoinOne(name, labels);
    JoinOne([], labels);
    var l, rest := labels[0], labels[1..];
    assert Dotted([]) + l == l;
    if rest != [] {
      JoinAfter(name + [DOT] + l, rest);
      JoinAfter(l, rest);
      Regroup(name + [DOT], l, [DOT], JoinOnto([], rest));
    } else {
      assert JoinOnto(name + [DOT] + l, rest) == name + [DOT] + l by { JoinEmpty(name + [DOT] + l); }
      JoinEmpty(l);
    }
  }

  lemma JoinEmpty(name: seq<byte>)
    ensures JoinOnto(name, []) == name
  {
  }

  // ---------- the query read back ----------

  lemma {:induction false} LabelsAreShort(labels: seq<Label>)
    requires GoodLabels(labels)
    ensures 2 * |labels| <= |LabelsBytes(labels)|
  {
    if labels != [] {
      GoodTail(labels);
      LabelsAreShort(labels[1..]);
    }
  }

  /** A name without pointers denotes its labels. */
  lemma {:induction false} DenotesTheName(doh: seq<byte>, index: nat, labels: seq<Label>)
    requires GoodLabels(labels) && At(doh, index, NameBytes(WireName(labels, Root)))
    ensures Denotes(doh, index, |labels|, labels)
    decreases |labels|
  {
    hide At;
    if labels == [] {
      assert NameBytes(WireName(labels, Root)) == [0];
      AtFirst(doh, index, [0]);
      AtInside(doh, index, [0]);
    } else {
      var l, rest := labels[0], WireName(labels[1..], Root);
      GoodTail(labels);
      assert NameBytes(WireName(labels, Root)) == LabelBytes(l) + NameBytes(rest);
      AtSplit(doh, index, LabelBytes(l), NameBytes(rest));
      LabelAt(doh, index, l);
      DenotesTheName(doh, index + 1 + |l|, labels[1..]);
    }
  }

  lemma AtInside(doh: seq<byte>, index: nat, x: seq<byte>)
    requires At(doh, index, x)
    ensures index + |x| <= |doh|
  {
  }

  /** Everything a query that could be encoded promises: its length is the one computed from the host alone, the name is
      skipped up to the type and class, and reading it gives the host back without its trailing dot. Neither the budget
      of steps nor the size of the name buffer is in the way. */
  lemma QueryReadsBack(host: Host, dnstype: nat, len: nat)
    requires |host| > 0 && Encode(host, dnstype, len).Ok?
    ensures var doh := Encode(host, dnstype, len).value;
            && |doh| == ExpectedLength(host) <= len
            && Skip(doh, HEADER) == Ok(|doh| - 4)
            && Read(doh, HEADER, LOOPS, []) == (OK, TrimDot(host))
  {
    hide Read, Skip, Denotes, JoinOnto, Labels, LabelsBytes, GoodLabels, At;
    var labels := Labels(host);
    var doh, name := Query(labels, dnstype), NameBytes(WireName(labels, Root));
    LabelsLength(host);
    LabelsAreShort(labels);
    QueryLayout(labels, dnstype);
    SkipsTheName(doh, HEADER, WireName(labels, Root));
    DenotesTheName(doh, HEADER, labels);
    JoinLabels(host, []);
    assert Dotted([]) + TrimDot(host) == TrimDot(host);
    ReadsWhatIsDenoted(doh, HEADER, |labels|, labels, LOOPS, []);
  }

  lemma QueryLayout(labels: seq<Label>, dnstype: nat)
    requires GoodLabels(labels)
    ensures At(Query(labels, dnstype), HEADER, NameBytes(WireName(labels, Root)))
    ensures |Query(labels, dnstype)| == HEADER + |LabelsBytes(labels)| + 1 + 4
  {
    hide LabelsBytes, GoodLabels;
  }

  // ---------- the encoder ----------

  lemma {:induction false} LabelsBytesEnd(labels: seq<Label>, l: Label)
    requires GoodLabels(labels) && GoodLabel(l)
    ensures GoodLabels(labels + [l]) && LabelsBytes(labels + [l]) == LabelsBytes(labels) + LabelBytes(l)
    decreases |labels|
  {
    if labels == [] {
      assert labels + [l] == [l] && [l][1..] == [];
    } else {
      assert (labels + [l])[1..] == labels[1..] + [l];
      LabelsBytesEnd(labels[1..], l);
    }
  }

  /** `memcpy(&dnsp[pos], x, |x|)`. */
  method PutBytes(dnsp: array<byte>, pos: nat, x: seq<byte>)
    requires pos + |x| <= dnsp.Length
    modifies dnsp
    ensures dnsp[..pos + |x|] == old(dnsp[..pos]) + x
    ensures dnsp[pos + |x|..] == old(dnsp[pos + |x|..])
  {
    forall k | 0 <= k < |x| {
      dnsp[pos + k] := x[k];
    }
  }

  /** The labels still to be written, and how far the buffer is filled. */
  ghost predicate Progress(host: Host, hostp: nat, done: seq<Label>, pos: nat)
  {
    && hostp <= |host| && |host| > 0 && GoodLabels(done)
    && Labels(host) == done + Labels(host[hostp..])
    && pos == HEADER + hostp + (if hostp == |host| && host[|host| - 1] != DOT then 1 else 0)
  }

  lemma AfterOneLabel(host: Host, hostp: nat, done: seq<Label>, pos: nat, n: nat)
    requires Progress(host, hostp, done, pos) && hostp < |host| && n == FirstDot(host[hostp..]) && 0 < n < 64
    ensures hostp + n <= |host| && GoodLabel(host[hostp..hostp + n])
    ensures pos + 1 + n + 5 <= ExpectedLength(host)
    ensures var next := if hostp + n < |host| then hostp + n + 1 else hostp + n;
            Progress(host, next, done + [host[hostp..hostp + n]], pos + 1 + n)
  {
    hide ExpectedLength, Labels;
    var s := host[hostp..];
    var next := if hostp + n < |host| then hostp + n + 1 else hostp + n;
    FirstLabel(s);
    assert s[..n] == host[hostp..hostp + n];
    assert AfterDot(s) == host[next..];
    assert done + ([s[..n]] + Labels(host[next..])) == (done + [s[..n]]) + Labels(host[next..]);
    assert Labels(s) == [s[..n]] + Labels(host[next..]);
    LengthLeft(host, hostp, n);
  }

  lemma LengthLeft(host: Host, hostp: nat, n: nat)
    requires hostp < |host| && n == FirstDot(host[hostp..])
    ensures HEADER + hostp + 1 + n + 5 <= ExpectedLength(host)
    ensures hostp + n < |host| ==> host[hostp + n] == DOT
    ensures hostp + n == |host| && n > 0 ==> host[|host| - 1] != DOT
  {
    var s := host[hostp..];
    if hostp + n == |host| && n > 0 {
      assert s[..n] == s && s[n - 1] == host[|host| - 1] && s[n - 1] in s[..n];
    }
  }

  lemma BadLabelHere(host: Host, hostp: nat, done: seq<Label>, pos: nat)
    requires Progress(host, hostp, done, pos) && hostp < |host|
    requires FirstDot(host[hostp..]) == 0 || FirstDot(host[hostp..]) > 63
    ensures !GoodLabels(Labels(host))
  {
    var s := host[hostp..];
    assert Labels(s)[0] in Labels(s) && Labels(s)[0] in Labels(host);
  }

  /** `doh_encode`: the query is written into `dnsp` label by label, inside the length computed beforehand. */
  method DohEncode(host: Host, dnstype: nat, dnsp: array<byte>) returns (code: Code, olen: nat)
    requires |host| > 0
    modifies dnsp
    ensures code == OK <==> Encode(host, dnstype, dnsp.Length).Ok?
    ensures code == OK ==> olen <= dnsp.Length && dnsp[..olen] == Encode(host, dnstype, dnsp.Length).value
    ensures code == OK ==> dnsp[olen..] == old(dnsp[olen..])
    ensures code != OK ==> Encode(host, dnstype, dnsp.Length) == Err(code) && olen == 0
    ensures code in {NameTooLong, TooSmallBuffer} ==> dnsp[..] == old(dnsp[..])
  {
    hide Labels, LabelsBytes, FirstDot;
    olen := 0;
    var expected := HEADER + 1 + |host| + 4;
    if host[|host| - 1] != DOT {
      expected := expected + 1;
    }
    if expected > LONGEST_NAME + 16 {
      return NameTooLong, 0;
    }
    if dnsp.Length < expected {
      return TooSmallBuffer, 0;
    }
    PutBytes(dnsp, 0, QueryHeader());
    var pos: nat, hostp: nat := HEADER, 0;
    ghost var done: seq<Label> := [];
    ProgressStart(host);
    while hostp < |host|
      invariant Progress(host, hostp, done, pos) && HEADER <= pos <= expected - 5
      invariant dnsp[..pos] == QueryHeader() + LabelsBytes(done)
      invariant dnsp[expected..] == old(dnsp[expected..])
    {
      var labellen := FirstDot(host[hostp..]);
      if labellen > 63 || labellen == 0 {
        BadLabelHere(host, hostp, done, pos);
        return BadLabel, 0;
      }
      AfterOneLabel(host, hostp, done, pos, labellen);
      var text := host[hostp..hostp + labellen];
      LabelsBytesEnd(done, text);
      PutLabel(dnsp, pos, text, expected);
      AppendLabel(QueryHeader(), LabelsBytes(done), LabelBytes(text));
      done := done + [text];
      pos := pos + 1 + labellen;
      hostp := hostp + labellen;
      if hostp < |host| {
        hostp := hostp + 1;
      }
    }
    ProgressEnd(host, done, pos);
    var tail := [0] + QueryTail(dnstype);
    PutBytes(dnsp, pos, tail);
    AppendTail(done, dnstype);
    code, olen := OK, pos + 5;
  }

  lemma AppendLabel(a: seq<byte>, b: seq<byte>, c: seq<byte>)
    ensures a + b + c == a + (b + c)
  {
  }

  lemma AppendTail(labels: seq<Label>, dnstype: nat)
    requires GoodLabels(labels)
    ensures QueryHeader() + LabelsBytes(labels) + ([0] + QueryTail(dnstype)) == Query(labels, dnstype)
  {
    hide LabelsBytes, QueryHeader, QueryTail;
    AppendLabel(QueryHeader(), LabelsBytes(labels), [0]);
    AppendLabel(QueryHeader() + LabelsBytes(labels), [0], QueryTail(dnstype));
  }

  lemma ProgressStart(host: Host)
    requires |host| > 0
    ensures Progress(host, 0, [], HEADER) && LabelsBytes([]) == []
  {
    assert host[0..] == host;
  }

  lemma ProgressEnd(host: Host, done: seq<Label>, pos: nat)
    requires Progress(host, |host|, done, pos)
    ensures Labels(host) == done && pos + 5 == ExpectedLength(host)
  {
    assert Labels(host[|host|..]) == [];
  }

  method PutLabel(dnsp: array<byte>, pos: nat, l: Label, expected: nat)
    requires GoodLabel(l) && pos + 1 + |l| <= expected <= dnsp.Length
    modifies dnsp
    ensures dnsp[..pos + 1 + |l|] == old(dnsp[..pos]) + LabelBytes(l)
    ensures dnsp[expected..] == old(dnsp[expected..])
  {
    dnsp[pos] := |l| as byte;
    PutBytes(dnsp, pos + 1, l);
    assert dnsp[..pos + 1 + |l|] == dnsp[..pos + 1] + l;
  }
}
