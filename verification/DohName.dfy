/** Domain names on the wire (curl/lib/doh.c): skipping and reading them, section 4.1.4 of RFC 1035. */
module DohName {
  import opened Bytes

  datatype Code =
    | OK
    | BadLabel
    | OutOfRange
    | LabelLoop
    | TooSmallBuffer
    | OutOfMem
    | RdataLen
    | Malformat
    | BadRcode
    | UnexpectedType
    | UnexpectedClass
    | NoContent
    | BadId
    | NameTooLong

  datatype Result<+T> = Ok(value: T) | Err(code: Code)

  type Label = seq<byte>

  const COMPRESSED: byte := 0xc0    // both top bits: the rest is an offset
  const RESERVED: byte := 0x40   // from here to COMPRESSED: not used
  const DOT: byte := 46
  const LOOPS: nat := 128
  const NAME_BUFFER: nat := 256  // DYN_DOH_CNAME, the terminating byte included

  function Low6(b: byte): nat
  {
    b as nat % 64
  }

  /** The offset in a pointer. */
  function Target(doh: seq<byte>, index: nat): nat
    requires index + 1 < |doh|
  {
    Low6(doh[index]) * 256 + doh[index + 1] as nat
  }

  // ---------- skipping ----------

  /** `skipqname`: the index after the name at `index`. */
  function Skip(doh: seq<byte>, index: nat): Result<nat>
    decreases |doh| - index
  {
    if |doh| < index + 1 then Err(OutOfRange) else
    var length := doh[index];
    if length >= COMPRESSED then if |doh| < index + 2 then Err(OutOfRange) else Ok(index + 2)
    else if length >= RESERVED then Err(BadLabel)
    else if |doh| < index + 1 + length as nat then Err(OutOfRange)
    else if length == 0 then Ok(index + 1)
    else Skip(doh, index + 1 + length as nat)
  }

  datatype NameEnd = Root | Pointer(offset: nat)

  /** A name as written: labels, then the root or a pointer to the rest. */
  datatype WireName = WireName(labels: seq<Label>, end: NameEnd)

  predicate GoodLabel(l: Label)
  {
    0 < |l| < 64
  }

  predicate GoodLabels(labels: seq<Label>)
  {
    forall l :: l in labels ==> GoodLabel(l)
  }

  predicate GoodName(w: WireName)
  {
    GoodLabels(w.labels) && (w.end.Pointer? ==> w.end.offset < 0x4000)
  }

  function LabelBytes(l: Label): seq<byte>
    requires GoodLabel(l)
  {
    [|l| as byte] + l
  }

  function LabelsBytes(labels: seq<Label>): seq<byte>
    requires GoodLabels(labels)
  {
    if labels == [] then [] else LabelBytes(labels[0]) + LabelsBytes(labels[1..])
  }

  function EndBytes(end: NameEnd): seq<byte>
    requires end.Pointer? ==> end.offset < 0x4000
  {
    if end.Root? then [0] else [COMPRESSED + (end.offset / 256) as byte, (end.offset % 256) as byte]
  }

  function NameBytes(w: WireName): seq<byte>
    requires GoodName(w)
  {
    LabelsBytes(w.labels) + EndBytes(w.end)
  }

  /** `x` stands at `index`. */
  predicate At(doh: seq<byte>, index: nat, x: seq<byte>)
  {
    index + |x| <= |doh| && doh[index..index + |x|] == x
  }

  lemma AtSplit(doh: seq<byte>, index: nat, x: seq<byte>, y: seq<byte>)
    ensures At(doh, index, x + y) <==> At(doh, index, x) && At(doh, index + |x|, y)
  {
    if At(doh, index, x + y) {
      assert doh[index..index + |x + y|][..|x|] == x;
      assert doh[index..index + |x + y|][|x|..] == y;
    }
    if At(doh, index, x) && At(doh, index + |x|, y) {
      assert doh[index..index + |x + y|] == doh[index..index + |x|] + doh[index + |x|..index + |x + y|];
    }
  }

  lemma AtFirst(doh: seq<byte>, index: nat, x: seq<byte>)
    requires At(doh, index, x) && |x| > 0
    ensures doh[index] == x[0] && (|x| > 1 ==> doh[index + 1] == x[1])
  {
    assert doh[index..index + |x|][0] == doh[index];
    assert |x| > 1 ==> doh[index..index + |x|][1] == doh[index + 1];
  }

  lemma LabelAt(doh: seq<byte>, index: nat, l: Label)
    requires GoodLabel(l)
    ensures At(doh, index, LabelBytes(l)) <==>
            index + 1 + |l| <= |doh| && doh[index] == |l| as byte && doh[index + 1..index + 1 + |l|] == l
  {
    AtSplit(doh, index, [|l| as byte], l);
    if index < |doh| {
      assert doh[index..index + 1] == [doh[index]];
    }
  }

  lemma EndAt(doh: seq<byte>, index: nat, end: NameEnd)
    requires end.Pointer? ==> end.offset < 0x4000
    requires At(doh, index, EndBytes(end))
    ensures Skip(doh, index) == Ok(index + |EndBytes(end)|)
  {
    AtFirst(doh, index, EndBytes(end));
  }

  /** A name that stands at `index` is skipped to its last byte. */
  lemma {:induction false} SkipsTheName(doh: seq<byte>, index: nat, w: WireName)
    requires GoodName(w) && At(doh, index, NameBytes(w))
    ensures Skip(doh, index) == Ok(index + |NameBytes(w)|)
    decreases |w.labels|
  {
    hide At;
    if w.labels == [] {
      assert NameBytes(w) == EndBytes(w.end);
      EndAt(doh, index, w.end);
    } else {
      var l, rest := w.labels[0], WireName(w.labels[1..], w.end);
      assert NameBytes(w) == LabelBytes(l) + NameBytes(rest);
      AtSplit(doh, index, LabelBytes(l), NameBytes(rest));
      LabelAt(doh, index, l);
      SkipsTheName(doh, index + |LabelBytes(l)|, rest);
    }
  }

  /** What is skipped is a name. */
  lemma {:induction false} SkippedIsAName(doh: seq<byte>, index: nat) returns (w: WireName)
    requires Skip(doh, index).Ok?
    ensures GoodName(w) && At(doh, index, NameBytes(w)) && Skip(doh, index) == Ok(index + |NameBytes(w)|)
    decreases |doh| - index
  {
    hide At;
    var length := doh[index];
    if length >= COMPRESSED || length == 0 {
      w := WireName([], if length == 0 then Root else Pointer(Target(doh, index)));
      assert NameBytes(w) == EndBytes(w.end);
      EndIsThere(doh, index, w.end);
    } else {
      var l := doh[index + 1..index + 1 + length as nat];
      var rest := SkippedIsAName(doh, index + 1 + length as nat);
      w := WireName([l] + rest.labels, rest.end);
      assert w.labels[1..] == rest.labels;
      assert NameBytes(w) == LabelBytes(l) + NameBytes(rest);
      LabelAt(doh, index, l);
      AtSplit(doh, index, LabelBytes(l), NameBytes(rest));
    }
  }

  lemma EndIsThere(doh: seq<byte>, index: nat, end: NameEnd)
    requires index < |doh|
    requires if doh[index] == 0 then end == Root
             else doh[index] >= COMPRESSED && index + 1 < |doh| && end == Pointer(Target(doh, index))
    ensures (end.Pointer? ==> end.offset < 0x4000) && At(doh, index, EndBytes(end))
  {
    if end.Root? {
      assert doh[index..index + 1] == [0];
    } else {
      assert doh[index..index + 2] == [doh[index], doh[index + 1]];
    }
  }

  // ---------- reading ----------

  /** Appends to a `dynbuf`: the buffer is emptied when the text and its terminator do not fit. */
  function Append(name: seq<byte>, x: seq<byte>): Result<seq<byte>>
  {
    if |name| + |x| + 1 > NAME_BUFFER then Err(OutOfMem) else Ok(name + x)
  }

  function Failed(r: Result<seq<byte>>): (Code, seq<byte>)
    requires r.Err?
  {
    (r.code, [])
  }

  /** Appends a dot, unless the name is empty, and the label at `index`. */
  function AddLabel(doh: seq<byte>, index: nat, length: nat, name: seq<byte>): (Code, seq<byte>)
  {
    var dotted := if name == [] then Ok(name) else Append(name, [DOT]);
    if dotted.Err? then Failed(dotted)
    else if index + length > |doh| then (BadLabel, dotted.value)
    else
      var more := Append(dotted.value, doh[index..index + length]);
      if more.Err? then Failed(more) else (OK, more.value)
  }

  /** `store_cname` from `index` on, `loop` steps being left: its verdict and the text in the buffer. */
  function Read(doh: seq<byte>, index: nat, loop: nat, name: seq<byte>): (Code, seq<byte>)
    decreases loop
  {
    if loop == 0 then (LabelLoop, name)
    else if index >= |doh| then (OutOfRange, name) else
    var length := doh[index];
    if length >= COMPRESSED then
      if index + 1 >= |doh| then (OutOfRange, name)
      else Read(doh, Target(doh, index), loop - 1, name)
    else if length >= RESERVED then (BadLabel, name)
    else if length == 0 then (OK, name)
    else
      var (code, more) := AddLabel(doh, index + 1, length as nat, name);
      if code != OK then (code, more) else Read(doh, index + 1 + length as nat, loop - 1, more)
  }

  function Dotted(name: seq<byte>): seq<byte>
  {
    if name == [] then [] else name + [DOT]
  }

  /** The labels of a name with dots between them, after `name`. */
  function JoinOnto(name: seq<byte>, labels: seq<Label>): seq<byte>
    decreases |labels|
  {
    if labels == [] then name
    else JoinOnto(Dotted(name) + labels[0], labels[1..])
  }

  /** The name at `index` has these labels, when `steps` labels and pointers are followed before its root. */
  predicate Denotes(doh: seq<byte>, index: nat, steps: nat, labels: seq<Label>)
    decreases steps
  {
    index < |doh| &&
    if steps == 0 then doh[index] == 0 && labels == []
    else if doh[index] >= COMPRESSED then
      index + 1 < |doh| && Denotes(doh, Target(doh, index), steps - 1, labels)
    else
      var length := doh[index] as nat;
      && 0 < length < 64 && index + 1 + length <= |doh| && labels != []
      && labels[0] == doh[index + 1..index + 1 + length]
      && Denotes(doh, index + 1 + length, steps - 1, labels[1..])
  }

  lemma {:induction false} JoinGrows(name: seq<byte>, labels: seq<Label>)
    ensures |JoinOnto(name, labels)| >= |name|
    decreases |labels|
  {
    if labels != [] {
      JoinGrows((if name == [] then [] else name + [DOT]) + labels[0], labels[1..]);
    }
  }

  lemma ReadRoot(doh: seq<byte>, index: nat, loop: nat, name: seq<byte>)
    requires loop > 0 && index < |doh| && doh[index] == 0
    ensures Read(doh, index, loop, name) == (OK, name)
  {
  }

  lemma ReadPointer(doh: seq<byte>, index: nat, loop: nat, name: seq<byte>)
    requires loop > 0 && index + 1 < |doh| && doh[index] >= COMPRESSED
    ensures Read(doh, index, loop, name) == Read(doh, Target(doh, index), loop - 1, name)
  {
  }

  lemma ReadLabel(doh: seq<byte>, index: nat, loop: nat, name: seq<byte>)
    requires loop > 0 && index < |doh| && 0 < doh[index] < RESERVED
    requires index + 1 + doh[index] as nat <= |doh| && |Dotted(name)| + doh[index] as nat < NAME_BUFFER
    ensures var next := index + 1 + doh[index] as nat;
            Read(doh, index, loop, name) == Read(doh, next, loop - 1, Dotted(name) + doh[index + 1..next])
  {
  }

  /** One step of a read that succeeds. */
  lemma ReadStep(doh: seq<byte>, index: nat, loop: nat, name: seq<byte>)
    requires Read(doh, index, loop, name).0 == OK
    ensures loop > 0 && index < |doh| && (doh[index] < RESERVED || doh[index] >= COMPRESSED)
    ensures doh[index] >= COMPRESSED ==> index + 1 < |doh|
    ensures 0 < doh[index] < RESERVED ==>
            index + 1 + doh[index] as nat <= |doh| && |Dotted(name)| + doh[index] as nat < NAME_BUFFER
  {
  }

  /** A name of few enough steps and bytes is read whole. */
  lemma {:induction false} ReadsWhatIsDenoted(doh: seq<byte>, index: nat, steps: nat, labels: seq<Label>, loop: nat, name: seq<byte>)
    requires Denotes(doh, index, steps, labels) && steps < loop && |JoinOnto(name, labels)| < NAME_BUFFER
    ensures Read(doh, index, loop, name) == (OK, JoinOnto(name, labels))
    decreases steps
  {
    hide Read, Target, Dotted;
    if steps == 0 {
      ReadRoot(doh, index, loop, name);
    } else if doh[index] >= COMPRESSED {
      ReadPointer(doh, index, loop, name);
      ReadsWhatIsDenoted(doh, Target(doh, index), steps - 1, labels, loop - 1, name);
    } else {
      JoinGrows(Dotted(name) + labels[0], labels[1..]);
      ReadLabel(doh, index, loop, name);
      ReadsWhatIsDenoted(doh, index + 1 + doh[index] as nat, steps - 1, labels[1..], loop - 1, Dotted(name) + labels[0]);
    }
  }

  /** What is read whole is a name of few enough steps and bytes. */
  lemma {:induction false} ReadIsDenoted(doh: seq<byte>, index: nat, loop: nat, name: seq<byte>)
    returns (steps: nat, labels: seq<Label>)
    requires Read(doh, index, loop, name).0 == OK
    ensures Denotes(doh, index, steps, labels) && steps < loop
    ensures Read(doh, index, loop, name).1 == JoinOnto(name, labels)
    ensures |name| < NAME_BUFFER ==> |JoinOnto(name, labels)| < NAME_BUFFER
    decreases loop
  {
    hide Read, Target, Dotted;
    ReadStep(doh, index, loop, name);
    var length := doh[index] as nat;
    if length == 0 {
      ReadRoot(doh, index, loop, name);
      steps, labels := 0, [];
    } else if doh[index] >= COMPRESSED {
      ReadPointer(doh, index, loop, name);
      steps, labels := ReadIsDenoted(doh, Target(doh, index), loop - 1, name);
      steps := steps + 1;
    } else {
      var l := doh[index + 1..index + 1 + length];
      var rest: seq<Label>;
      ReadLabel(doh, index, loop, name);
      steps, rest := ReadIsDenoted(doh, index + 1 + length, loop - 1, Dotted(name) + l);
      steps, labels := steps + 1, [l] + rest;
      assert labels[1..] == rest;
    }
  }

  /** A name within the budget of steps and bytes, and its text. */
  predicate Readable(doh: seq<byte>, index: nat, steps: nat, labels: seq<Label>, name: seq<byte>)
  {
    steps < LOOPS && Denotes(doh, index, steps, labels) && name == JoinOnto([], labels) && |name| < NAME_BUFFER
  }

  /** `store_cname` succeeds exactly on the names of at most 127 labels and pointers and at most 255 bytes of text, and
      then it stores their labels. The budget is what makes every pointer chain, cyclic or not, come to an end. */
  lemma ReadExactly(doh: seq<byte>, index: nat, name: seq<byte>)
    ensures Read(doh, index, LOOPS, []) == (OK, name) <==> exists steps, labels :: Readable(doh, index, steps, labels, name)
  {
    hide Read, Denotes, JoinOnto;
    if Read(doh, index, LOOPS, []) == (OK, name) {
      var steps, labels := ReadIsDenoted(doh, index, LOOPS, []);
      assert Readable(doh, index, steps, labels, name);
    }
    if steps, labels :| Readable(doh, index, steps, labels, name) {
      ReadsWhatIsDenoted(doh, index, steps, labels, LOOPS, []);
    }
  }
}
