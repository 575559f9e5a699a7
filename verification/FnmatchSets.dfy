/** What a set in a wildcard pattern is written like, and what it means (curl/lib/curl_fnmatch.c): the texts `setcharset`
    accepts are exactly the printed sets, and it reads them as the union of their elements. */
module FnmatchSets {
  import opened CString
  import opened Fnmatch

  datatype Element =
    | Byte(c: char)
    | Escaped(c: char)
    | Range(escapedFirst: bool, first: char, escapedLast: bool, last: char)
    | Class(word: string)

  /** How a set begins: like any other, or with a closing bracket that is listed, and then up to two more bytes are listed
      as they are. */
  datatype Opening = Plain | Bracket(raw: string)

  datatype CharSet = CharSet(negation: string, opening: Opening, elements: seq<Element>)

  function Print(e: Element): string
  {
    match e
    case Byte(c) => [c]
    case Escaped(c) => ['\\', c]
    case Range(ef, c, el, d) => (if ef then "\\" else "") + [c, '-'] + (if el then "\\" else "") + [d]
    case Class(word) => "[:" + word + ":]"
  }

  function PrintAll(es: seq<Element>): string
  {
    if es == [] then "" else Print(es[0]) + PrintAll(es[1..])
  }

  function Start(opening: Opening): string
  {
    match opening
    case Plain => ""
    case Bracket(raw) => "]" + raw
  }

  /** A set without its two brackets. */
  function PrintSet(m: CharSet): string
  {
    m.negation + Start(m.opening) + PrintAll(m.elements)
  }

  // ---------- what a set means ----------

  predicate Holds(e: Element, x: char)
  {
    match e
    case Byte(c) => x == c
    case Escaped(c) => x == c
    case Range(_, c, _, d) => c <= x <= d
    case Class(word) => Keyword(word).Some? && InClass(Keyword(word).value, x)
  }

  predicate Lists(m: CharSet, x: char)
  {
    || x in Start(m.opening)
    || exists k :: 0 <= k < |m.elements| && Holds(m.elements[k], x)
  }

  predicate Means(m: CharSet, x: char)
  {
    x as int < 256 && Lists(m, x) != (m.negation != "")
  }

  // ---------- which sets a text can hold ----------

  predicate Sound(e: Element)
  {
    match e
    case Byte(c) => 0 < c as int < 256 && c != ']' && c != '\\'
    case Escaped(c) => 0 < c as int < 256
    case Range(_, c, _, d) => IsAlnum(c) && c <= d && ClassOf(d) == ClassOf(c)
    case Class(word) => Keyword(word).Some?
  }

  predicate HasAt(p: Text, i: nat, s: string)
  {
    i + |s| <= |p| && p[i..i + |s|] == s
  }

  /** The text at `i` would make a range of the byte before it. */
  predicate MakesRange(c: char, p: Text, i: nat)
  {
    var d := if At(p, i + 1) == '\\' then At(p, i + 2) else At(p, i + 1);
    IsAlnum(c) && At(p, i) == '-' && c <= d && ClassOf(d) == ClassOf(c)
  }

  /** The text at `i` would make a class of the bracket before it. */
  ghost predicate MakesClass(p: Text, i: nat)
  {
    exists word :: Keyword(word).Some? && HasAt(p, i, ":" + word + ":]")
  }

  /** An element is not a part of a longer one with the text that follows it at `i`. */
  ghost predicate Ends(e: Element, p: Text, i: nat)
  {
    match e
    case Byte(c) => !MakesRange(c, p, i) && (c == '[' ==> !MakesClass(p, i))
    case Escaped(c) => !MakesRange(c, p, i)
    case _ => true
  }

  /** The text from `i` to the closing bracket at `j` spells the elements. */
  ghost predicate Spells(p: Text, i: nat, es: seq<Element>, j: nat)
    decreases |es|
  {
    if es == [] then i == j && At(p, j) == ']' else
    && Sound(es[0]) && HasAt(p, i, Print(es[0])) && Ends(es[0], p, i + |Print(es[0])|)
    && Spells(p, i + |Print(es[0])|, es[1..], j)
  }

  /** What may stand between a closing bracket that is listed and the other elements. */
  predicate SoundRaw(raw: string, es: seq<Element>)
  {
    || ((raw == "" || raw == "[") && es == [])
    || (|raw| == 1 && IsPrint(raw[0]) && raw[0] != '[' && raw[0] != ']')
    || (|raw| == 2 && raw[0] == '[' && 0 < raw[1] as int < 256 && raw[1] != ']')
  }

  predicate SoundHead(m: CharSet)
  {
    && m.negation in {"", "^", "!"}
    && match m.opening
       case Bracket(raw) => SoundRaw(raw, m.elements)
       case Plain => m.elements != [] && (m.negation == "" ==> m.elements[0] !in {Byte('^'), Byte('!')})
  }

  ghost predicate SpellsSet(p: Text, i: nat, m: CharSet, j: nat)
  {
    var k := i + |m.negation|;
    && SoundHead(m) && HasAt(p, i, m.negation) && HasAt(p, k, Start(m.opening))
    && Spells(p, k + |Start(m.opening)|, m.elements, j)
  }

  // ---------- what is read ----------

  function Put(e: Element, cs: Flags): Flags
    requires Sound(e)
  {
    match e
    case Byte(c) => cs[c as int := true]
    case Escaped(c) => cs[c as int := true]
    case Range(_, c, _, d) => AlnumIsByte(d); Fill(cs[c as int := true], c as int, d as int)
    case Class(word) => KeywordRange(word); cs[Keyword(word).value := true]
  }

  lemma AlnumIsByte(c: char)
    ensures ClassOf(c) != Other ==> c as int < 128
  {
  }

  predicate AllSound(es: seq<Element>)
  {
    forall k :: 0 <= k < |es| ==> Sound(es[k])
  }

  function PutAll(es: seq<Element>, cs: Flags): Flags
    requires AllSound(es)
  {
    if es == [] then cs else
    assert Sound(es[0]);
    PutAll(es[1..], Put(es[0], cs))
  }

  function PutRaw(s: string, cs: Flags): Flags
    requires forall k :: 0 <= k < |s| ==> s[k] as int < 256
  {
    if s == "" then cs else PutRaw(s[1..], cs[s[0] as int := true])
  }

  // ---------- one element ----------

  lemma HasAtByte(p: Text, i: nat, s: string, k: nat)
    requires HasAt(p, i, s) && k < |s|
    ensures At(p, i + k) == s[k] && i + k < |p|
  {
    assert p[i..i + |s|][k] == s[k];
  }

  lemma KeywordIsLower(word: string)
    ensures Keyword(word).Some? ==> forall k :: 0 <= k < |word| ==> IsLower(word[k])
  {
  }

  lemma {:induction false} LowerRunIs(p: Text, i: nat, j: nat)
    requires i <= j <= |p| && !IsLower(At(p, j)) && forall k :: i <= k < j ==> IsLower(p[k])
    ensures LowerRun(p, i) == j
    decreases j - i
  {
    if i < j {
      LowerRunIs(p, i + 1, j);
    }
  }

  lemma KeywordIsRead(p: Text, i: nat, word: string)
    requires Keyword(word).Some? && HasAt(p, i, word + ":]")
    ensures KeywordAt(p, i) == Some((Keyword(word).value, i + |word| + 2))
  {
    KeywordIsLower(word);
    hide Keyword;
    var s := word + ":]";
    var j := i + |word|;
    HasAtByte(p, i, s, |word|);
    HasAtByte(p, i, s, |word| + 1);
    forall k | i <= k < j ensures IsLower(p[k]) {
      HasAtByte(p, i, s, k - i);
    }
    LowerRunIs(p, i, j);
    assert p[i..j] == s[..|word|];
  }

  lemma KeywordIsThere(p: Text, i: nat)
    requires i <= |p| && KeywordAt(p, i).Some?
    ensures var word := p[i..LowerRun(p, i)];
            Keyword(word) == Some(KeywordAt(p, i).value.0) && HasAt(p, i, word + ":]")
            && KeywordAt(p, i).value.1 == i + |word| + 2
  {
    hide Keyword;
    var j := LowerRun(p, i);
    assert p[i..j + 2] == p[i..j] + ":]";
  }

  lemma ClassIsKeyword(p: Text, i: nat)
    requires i < |p| && At(p, i) == ':'
    ensures MakesClass(p, i) <==> KeywordAt(p, i + 1).Some?
  {
    hide Keyword, KeywordAt, LowerRun;
    if word :| Keyword(word).Some? && HasAt(p, i, ":" + word + ":]") {
      assert p[i + 1..i + 1 + |word + ":]"|] == p[i..i + |":" + word + ":]"|][1..];
      KeywordIsRead(p, i + 1, word);
    }
    if KeywordAt(p, i + 1).Some? {
      KeywordIsThere(p, i + 1);
      var word := p[i + 1..LowerRun(p, i + 1)];
      assert p[i..i + |":" + word + ":]"|] == [p[i]] + p[i + 1..i + 1 + |word + ":]"|];
      assert ":" + word + ":]" == [p[i]] + (word + ":]");
    }
  }

  lemma NoColonNoClass(p: Text, i: nat)
    requires At(p, i) != ':'
    ensures !MakesClass(p, i)
  {
    hide Keyword;
    if word :| Keyword(word).Some? && HasAt(p, i, ":" + word + ":]") {
      HasAtByte(p, i, ":" + word + ":]", 0);
    }
  }

  /** Where an element can be read: past the start of the set, or at it if it is not taken for a negation. */
  predicate Readable(e: Element, found: bool, cs: Flags)
  {
    !found && !cs[NEGATE] ==> e !in {Byte('^'), Byte('!')}
  }

  lemma ByteIsRead(p: Text, i: nat, e: Element, found: bool, cs: Flags)
    requires e.Byte? && Sound(e) && HasAt(p, i, Print(e)) && Ends(e, p, i + 1) && Readable(e, found, cs)
    ensures SetFrom(p, i, Default, found, cs) == SetFrom(p, i + 1, Default, true, Put(e, cs))
  {
    HasAtByte(p, i, Print(e), 0);
    if e.c == '[' && At(p, i + 1) == ':' {
      ClassIsKeyword(p, i + 1);
    }
    hide KeywordAt, MakesClass;
  }

  lemma EscapedIsRead(p: Text, i: nat, e: Element, found: bool, cs: Flags)
    requires e.Escaped? && Sound(e) && HasAt(p, i, Print(e)) && Ends(e, p, i + 2)
    ensures SetFrom(p, i, Default, found, cs) == SetFrom(p, i + 2, Default, true, Put(e, cs))
  {
    HasAtByte(p, i, Print(e), 0);
    HasAtByte(p, i, Print(e), 1);
    assert CharOrRange(p, i + 1, cs) == (i + 2, Put(e, cs));
    hide KeywordAt, MakesClass, CharOrRange;
  }

  /** A range after its first byte, which may be escaped. */
  lemma RangeTail(p: Text, i: nat, e: Element, cs: Flags)
    requires e.Range? && Sound(e) && HasAt(p, i, Print(e)[if e.escapedFirst then 1 else 0..])
    ensures CharOrRange(p, i, cs) == (i + |Print(e)| - if e.escapedFirst then 1 else 0, Put(e, cs))
    ensures At(p, i) == e.first && i < |p|
  {
    var s := [e.first, '-'] + (if e.escapedLast then "\\" else "") + [e.last];
    assert Print(e)[if e.escapedFirst then 1 else 0..] == s;
    hide HasAt, Print, Fill, LowerRun, Keyword;
    HasAtByte(p, i, s, 0);
    HasAtByte(p, i, s, 1);
    HasAtByte(p, i, s, 2);
    if e.escapedLast {
      HasAtByte(p, i, s, 3);
    }
  }

  lemma RangeIsRead(p: Text, i: nat, e: Element, found: bool, cs: Flags)
    requires e.Range? && Sound(e) && HasAt(p, i, Print(e))
    ensures SetFrom(p, i, Default, found, cs) == SetFrom(p, i + |Print(e)|, Default, true, Put(e, cs))
  {
    hide KeywordAt, CharOrRange;
    HasAtByte(p, i, Print(e), 0);
    if e.escapedFirst {
      assert p[i + 1..i + |Print(e)|] == p[i..i + |Print(e)|][1..];
      RangeTail(p, i + 1, e, cs);
    } else {
      assert Print(e)[0..] == Print(e);
      RangeTail(p, i, e, cs);
    }
  }

  lemma ClassIsRead(p: Text, i: nat, e: Element, found: bool, cs: Flags)
    requires e.Class? && Sound(e) && HasAt(p, i, Print(e))
    ensures SetFrom(p, i, Default, found, cs) == SetFrom(p, i + |Print(e)|, Default, true, Put(e, cs))
  {
    hide Keyword, KeywordAt, CharOrRange;
    HasAtByte(p, i, Print(e), 0);
    HasAtByte(p, i, Print(e), 1);
    assert p[i + 2..i + 2 + |e.word + ":]"|] == p[i..i + |Print(e)|][2..];
    assert Print(e)[2..] == e.word + ":]";
    KeywordIsRead(p, i + 2, e.word);
  }

  lemma ElementIsRead(p: Text, i: nat, e: Element, found: bool, cs: Flags)
    requires Sound(e) && HasAt(p, i, Print(e)) && Ends(e, p, i + |Print(e)|) && Readable(e, found, cs)
    ensures SetFrom(p, i, Default, found, cs) == SetFrom(p, i + |Print(e)|, Default, true, Put(e, cs))
  {
    hide SetFrom, HasAt, Put;
    match e
    case Byte(_) => ByteIsRead(p, i, e, found, cs);
    case Escaped(_) => EscapedIsRead(p, i, e, found, cs);
    case Range(_, _, _, _) => RangeIsRead(p, i, e, found, cs);
    case Class(_) => ClassIsRead(p, i, e, found, cs);
  }

  /** Elements spelled up to a closing bracket are read, and the bracket is found. */
  lemma {:induction false} ElementsAreRead(p: Text, i: nat, es: seq<Element>, j: nat, found: bool, cs: Flags)
    requires Spells(p, i, es, j) && AllSound(es) && (es == [] ==> found) && (es != [] ==> Readable(es[0], found, cs))
    ensures i <= |p| && SetFrom(p, i, Default, found, cs) == Some((j, PutAll(es, cs)))
    decreases |es|
  {
    hide Ends, Sound, Print, Put;
    if es != [] {
      assert Sound(es[0]);
      hide SetFrom;
      ElementIsRead(p, i, es[0], found, cs);
      ElementsAreRead(p, i + |Print(es[0])|, es[1..], j, true, Put(es[0], cs));
    }
  }

  lemma {:induction false} SpelledIsSound(p: Text, i: nat, es: seq<Element>, j: nat)
    requires Spells(p, i, es, j)
    ensures AllSound(es) && i <= j < |p| && p[j] == ']' && p[i..j] == PrintAll(es)
    decreases |es|
  {
    hide Ends, Sound, Print;
    if es != [] {
      var n := i + |Print(es[0])|;
      SpelledIsSound(p, n, es[1..], j);
      assert p[i..j] == p[i..n] + p[n..j];
      forall k | 0 <= k < |es| ensures Sound(es[k]) {
        assert k > 0 ==> es[k] == es[1..][k - 1];
      }
    }
  }

  // ---------- the other way: what was read was spelled ----------

  /** The bytes of a range at `i`. */
  function RangeAt(p: Text, i: nat, escaped: bool): Element
    requires i < |p|
  {
    var el := At(p, i + 2) == '\\';
    Range(escaped, p[i], el, if el then At(p, i + 3) else At(p, i + 2))
  }

  lemma RangeWasSpelled(p: Text, i: nat, cs: Flags, escaped: bool)
    requires i < |p| && (escaped ==> i > 0 && p[i - 1] == '\\') && MakesRange(p[i], p, i + 1)
    ensures var e := RangeAt(p, i, escaped);
            var at := if escaped then i - 1 else i;
            Sound(e) && HasAt(p, at, Print(e)) && at + |Print(e)| == CharOrRange(p, i, cs).0
  {
    var e := RangeAt(p, i, escaped);
    var s := [e.first, '-'] + (if e.escapedLast then "\\" else "") + [e.last];
    assert p[i..i + |s|] == s;
    if escaped {
      assert Print(e) == "\\" + s;
      assert p[i - 1..i + |s|] == [p[i - 1]] + p[i..i + |s|];
    } else {
      assert Print(e) == s;
    }
  }

  lemma CharWasSpelled(p: Text, i: nat, cs: Flags, escaped: bool)
    requires i < |p| && (escaped ==> i > 0 && p[i - 1] == '\\') && !MakesRange(p[i], p, i + 1)
    ensures var e := if escaped then Escaped(p[i]) else Byte(p[i]);
            var at := if escaped then i - 1 else i;
            HasAt(p, at, Print(e)) && at + |Print(e)| == CharOrRange(p, i, cs).0
  {
    if escaped {
      TwoBytesAt(p, i - 1);
    } else {
      OneByteAt(p, i);
    }
    hide HasAt, ClassOf;
  }

  lemma CharOrRangeWasSpelled(p: Text, i: nat, cs: Flags, escaped: bool) returns (e: Element)
    requires i < |p| && (escaped ==> i > 0 && p[i - 1] == '\\')
    requires !escaped ==> p[i] != '[' && p[i] != ']' && p[i] != '\\'
    ensures var at := if escaped then i - 1 else i;
            && Sound(e) && HasAt(p, at, Print(e)) && at + |Print(e)| == CharOrRange(p, i, cs).0
            && Ends(e, p, at + |Print(e)|)
    ensures e.Byte? ==> e.c == p[i]
  {
    if MakesRange(p[i], p, i + 1) {
      RangeWasSpelled(p, i, cs, escaped);
      e := RangeAt(p, i, escaped);
    } else {
      hide CharOrRange, HasAt, MakesRange;
      CharWasSpelled(p, i, cs, escaped);
      e := if escaped then Escaped(p[i]) else Byte(p[i]);
    }
  }

  lemma ClassWasSpelled(p: Text, i: nat) returns (word: string)
    requires i < |p| && p[i] == '[' && At(p, i + 1) == ':' && KeywordAt(p, i + 2).Some?
    ensures Keyword(word).Some? && HasAt(p, i, "[:" + word + ":]")
    ensures i + |word| + 4 == KeywordAt(p, i + 2).value.1
  {
    hide Keyword, KeywordAt, LowerRun;
    KeywordIsThere(p, i + 2);
    word := p[i + 2..LowerRun(p, i + 2)];
    assert p[i..i + |word| + 4] == [p[i], p[i + 1]] + p[i + 2..i + 2 + |word + ":]"|];
    assert "[:" + word + ":]" == [p[i], p[i + 1]] + (word + ":]");
  }

  lemma BracketWasSpelled(p: Text, i: nat, cs: Flags) returns (e: Element)
    requires i < |p| && p[i] == '['
    ensures Sound(e) && HasAt(p, i, Print(e)) && Ends(e, p, i + |Print(e)|) && (e.Byte? ==> e.c == '[')
  {
    hide Keyword, KeywordAt, MakesClass;
    if At(p, i + 1) == ':' && KeywordAt(p, i + 2).Some? {
      var word := ClassWasSpelled(p, i);
      e := Class(word);
    } else {
      e := Byte('[');
      if At(p, i + 1) == ':' {
        ClassIsKeyword(p, i + 1);
      } else {
        NoColonNoClass(p, i + 1);
      }
      assert HasAt(p, i, Print(e));
    }
  }

  lemma BackslashNeedsByte(p: Text, i: nat, found: bool, cs: Flags)
    requires i < |p| && p[i] == '\\' && SetFrom(p, i, Default, found, cs).Some?
    ensures i + 1 < |p|
  {
  }

  /** Where the parser takes one element and goes on, that element is spelled. */
  lemma ElementWasSpelled(p: Text, i: nat, found: bool, cs: Flags) returns (e: Element)
    requires i < |p| && SetFrom(p, i, Default, found, cs).Some? && p[i] != ']'
    requires !found && !cs[NEGATE] ==> p[i] != '^' && p[i] != '!'
    ensures Sound(e) && HasAt(p, i, Print(e)) && Ends(e, p, i + |Print(e)|) && Readable(e, found, cs)
  {
    hide SetFrom, HasAt, Ends, Sound, CharOrRange;
    if p[i] == '\\' {
      BackslashNeedsByte(p, i, found, cs);
      e := CharOrRangeWasSpelled(p, i + 1, cs, true);
    } else if p[i] == '[' {
      e := BracketWasSpelled(p, i, cs);
    } else {
      e := CharOrRangeWasSpelled(p, i, cs, false);
    }
  }

  lemma PrintIsNotEmpty(e: Element)
    ensures |Print(e)| > 0
  {
  }

  lemma {:induction false} ElementsWereSpelled(p: Text, i: nat, found: bool, cs: Flags) returns (es: seq<Element>)
    requires i <= |p| && SetFrom(p, i, Default, found, cs).Some?
    requires !found ==> i < |p| && p[i] != ']'
    requires i < |p| && !found && !cs[NEGATE] ==> p[i] != '^' && p[i] != '!'
    ensures Spells(p, i, es, SetFrom(p, i, Default, found, cs).value.0)
    ensures !found ==> es != []
    ensures es != [] ==> Readable(es[0], found, cs)
    decreases |p| - i
  {
    if i < |p| && p[i] == ']' {
      es := [];
    } else {
      var e := ElementWasSpelled(p, i, found, cs);
      hide Ends, Sound, Print, Put, SetFrom, Readable;
      ElementIsRead(p, i, e, found, cs);
      PrintIsNotEmpty(e);
      var rest := ElementsWereSpelled(p, i + |Print(e)|, true, Put(e, cs));
      es := [e] + rest;
      assert es[1..] == rest;
    }
  }

  // ---------- whole sets ----------

  lemma RawIsRead(p: Text, i: nat, raw: string, es: seq<Element>, j: nat, cs: Flags)
    requires SoundRaw(raw, es) && AllSound(es) && HasAt(p, i, raw) && Spells(p, i + |raw|, es, j)
    ensures i <= |p| && SetFrom(p, i, RightBr, true, cs) == Some((j, PutAll(es, PutRaw(raw, cs))))
  {
    hide Ends, Sound, Put;
    forall k | 0 <= k < |raw| ensures At(p, i + k) == raw[k] && i + k < |p| {
      HasAtByte(p, i, raw, k);
    }
    PutRawUnfolds(raw, cs);
    if es == [] {
      assert p[j] == ']';
      assert PutAll(es, PutRaw(raw, cs)) == PutRaw(raw, cs);
    }
    ElementsAreRead(p, i + |raw|, es, j, true, PutRaw(raw, cs));
  }

  lemma PutRawUnfolds(s: string, cs: Flags)
    requires forall k :: 0 <= k < |s| ==> s[k] as int < 256
    ensures s == "" ==> PutRaw(s, cs) == cs
    ensures |s| == 1 ==> PutRaw(s, cs) == cs[s[0] as int := true]
    ensures |s| == 2 ==> PutRaw(s, cs) == cs[s[0] as int := true][s[1] as int := true]
  {
    if |s| == 2 {
      assert PutRaw(s, cs) == PutRaw(s[1..], cs[s[0] as int := true]);
    }
  }

  lemma OneByteAt(p: Text, i: nat)
    requires i < |p|
    ensures HasAt(p, i, [p[i]])
  {
  }

  lemma TwoBytesAt(p: Text, i: nat)
    requires i + 1 < |p|
    ensures HasAt(p, i, [p[i], p[i + 1]])
  {
    assert p[i..i + 2] == [p[i], p[i + 1]];
  }

  lemma NothingAt(p: Text, i: nat)
    requires i <= |p|
    ensures HasAt(p, i, "")
  {
  }

  /** What the parser does after a closing bracket that it lists. */
  lemma AfterBracket(p: Text, i: nat, cs: Flags)
    requires i <= |p| && SetFrom(p, i, RightBr, true, cs).Some?
    ensures i < |p|
    ensures var r := SetFrom(p, i, RightBr, true, cs);
            var cs1 := cs[p[i] as int := true];
            if p[i] == ']' then r.value.0 == i
            else if p[i] != '[' then IsPrint(p[i]) && r == SetFrom(p, i + 1, Default, true, cs1)
            else i + 1 < |p| && if p[i + 1] == ']' then r.value.0 == i + 1
            else r == SetFrom(p, i + 2, Default, true, cs1[p[i + 1] as int := true])
  {
  }

  lemma RawWasSpelled(p: Text, i: nat, cs: Flags) returns (raw: string, es: seq<Element>)
    requires i <= |p| && SetFrom(p, i, RightBr, true, cs).Some?
    ensures SoundRaw(raw, es) && HasAt(p, i, raw)
    ensures Spells(p, i + |raw|, es, SetFrom(p, i, RightBr, true, cs).value.0)
  {
    hide Ends, Sound, HasAt, SetFrom, Print;
    AfterBracket(p, i, cs);
    OneByteAt(p, i);
    if p[i] == ']' {
      NothingAt(p, i);
      raw, es := "", [];
    } else if p[i] != '[' {
      raw := [p[i]];
      es := ElementsWereSpelled(p, i + 1, true, cs[p[i] as int := true]);
    } else if p[i + 1] == ']' {
      raw, es := "[", [];
    } else {
      TwoBytesAt(p, i);
      raw := ['[', p[i + 1]];
      es := ElementsWereSpelled(p, i + 2, true, cs['[' as int := true][p[i + 1] as int := true]);
    }
  }

  /** The flags of a set: its negation, what it opens with, and its elements. */
  function FlagsOf(m: CharSet): Flags
    requires SoundHead(m) && AllSound(m.elements)
  {
    var cs := NoFlags()[NEGATE := m.negation != ""];
    PutAll(m.elements, if m.opening.Plain? then cs else PutRaw(m.opening.raw, cs[']' as int := true]))
  }

  lemma OpeningIsRead(p: Text, i: nat, raw: string, es: seq<Element>, j: nat, cs: Flags)
    requires SoundRaw(raw, es) && AllSound(es) && HasAt(p, i, "]" + raw) && Spells(p, i + 1 + |raw|, es, j)
    ensures i <= |p| && SetFrom(p, i, Default, false, cs) == Some((j, PutAll(es, PutRaw(raw, cs[']' as int := true]))))
  {
    hide Spells, SoundRaw, AllSound, PutAll, PutRaw;
    HasAtByte(p, i, "]" + raw, 0);
    assert p[i + 1..i + 1 + |raw|] == p[i..i + |"]" + raw|][1..];
    RawIsRead(p, i + 1, raw, es, j, cs[']' as int := true]);
  }

  /** The part of a set after its negation. */
  lemma BodyIsRead(p: Text, i: nat, m: CharSet, j: nat)
    requires SoundHead(m) && AllSound(m.elements)
    requires HasAt(p, i, Start(m.opening)) && Spells(p, i + |Start(m.opening)|, m.elements, j)
    ensures i <= |p|
    ensures SetFrom(p, i, Default, false, NoFlags()[NEGATE := m.negation != ""]) == Some((j, FlagsOf(m)))
  {
    hide Spells, SoundRaw, AllSound, PutAll, PutRaw, SetFrom;
    var cs := NoFlags()[NEGATE := m.negation != ""];
    match m.opening
    case Plain => ElementsAreRead(p, i, m.elements, j, false, cs);
    case Bracket(raw) => OpeningIsRead(p, i, raw, m.elements, j, cs);
  }

  lemma SetIsRead(p: Text, i: nat, m: CharSet, j: nat)
    requires SpellsSet(p, i, m, j)
    ensures i <= j < |p| && p[j] == ']' && p[i..j] == PrintSet(m)
    ensures AllSound(m.elements) && SetAt(p, i) == Some((j, FlagsOf(m)))
  {
    hide Spells, PutAll, SetFrom, FlagsOf, SoundRaw, HasAt;
    var n := i + |m.negation|;
    var k := n + |Start(m.opening)|;
    SpelledIsSound(p, k, m.elements, j);
    Joined(p, i, m.negation, Start(m.opening), j);
    BodyIsRead(p, n, m, j);
    if m.negation == "" {
      assert NoFlags()[NEGATE := false] == NoFlags();
    } else {
      HasAtByte(p, i, m.negation, 0);
      NegationIsRead(p, i);
    }
  }

  lemma Joined(p: Text, i: nat, a: string, b: string, j: nat)
    requires HasAt(p, i, a) && HasAt(p, i + |a|, b) && i + |a + b| <= j <= |p|
    ensures p[i..j] == a + b + p[i + |a + b|..j]
  {
    assert p[i..j] == p[i..i + |a|] + p[i + |a|..i + |a + b|] + p[i + |a + b|..j];
  }

  lemma NegationIsRead(p: Text, i: nat)
    requires i < |p| && (p[i] == '^' || p[i] == '!')
    ensures SetFrom(p, i, Default, false, NoFlags()) == SetFrom(p, i + 1, Default, false, NoFlags()[NEGATE := true])
  {
  }

  lemma OpeningWasSpelled(p: Text, i: nat, cs: Flags) returns (raw: string, es: seq<Element>)
    requires i < |p| && p[i] == ']' && SetFrom(p, i, Default, false, cs).Some?
    ensures SoundRaw(raw, es) && HasAt(p, i, "]" + raw)
    ensures Spells(p, i + |"]" + raw|, es, SetFrom(p, i, Default, false, cs).value.0)
  {
    hide Spells, SoundRaw, SetFrom, HasAt;
    ClosingFirst(p, i, cs);
    raw, es := RawWasSpelled(p, i + 1, cs[']' as int := true]);
    BracketBefore(p, i, raw);
  }

  lemma BodyWasSpelled(p: Text, i: nat, negation: string, cs: Flags) returns (m: CharSet)
    requires i <= |p| && negation in {"", "^", "!"} && cs[NEGATE] == (negation != "")
    requires SetFrom(p, i, Default, false, cs).Some?
    requires negation == "" && i < |p| ==> p[i] != '^' && p[i] != '!'
    ensures SoundHead(m) && m.negation == negation && HasAt(p, i, Start(m.opening))
    ensures Spells(p, i + |Start(m.opening)|, m.elements, SetFrom(p, i, Default, false, cs).value.0)
  {
    hide Spells, SoundRaw, SetFrom, HasAt;
    EndIsBad(p, i, cs);
    if p[i] == ']' {
      var raw, es := OpeningWasSpelled(p, i, cs);
      m := CharSet(negation, Bracket(raw), es);
    } else {
      NothingAt(p, i);
      var es := ElementsWereSpelled(p, i, false, cs);
      m := CharSet(negation, Plain, es);
    }
  }

  lemma BracketBefore(p: Text, i: nat, raw: string)
    requires i < |p| && p[i] == ']' && HasAt(p, i + 1, raw)
    ensures HasAt(p, i, "]" + raw)
  {
    assert p[i..i + 1 + |raw|] == [p[i]] + p[i + 1..i + 1 + |raw|];
  }

  lemma EndIsBad(p: Text, i: nat, cs: Flags)
    requires i <= |p| && SetFrom(p, i, Default, false, cs).Some?
    ensures i < |p|
  {
  }

  lemma ClosingFirst(p: Text, i: nat, cs: Flags)
    requires i < |p| && p[i] == ']'
    ensures SetFrom(p, i, Default, false, cs) == SetFrom(p, i + 1, RightBr, true, cs[']' as int := true])
  {
  }

  lemma SetWasSpelled(p: Text, i: nat) returns (m: CharSet)
    requires i <= |p| && SetAt(p, i).Some?
    ensures SpellsSet(p, i, m, SetAt(p, i).value.0)
  {
    hide Spells, SetFrom, HasAt, SoundHead, Start;
    EndIsBad(p, i, NoFlags());
    if p[i] == '^' || p[i] == '!' {
      NegationIsRead(p, i);
      OneByteAt(p, i);
      m := BodyWasSpelled(p, i + 1, [p[i]], NoFlags()[NEGATE := true]);
    } else {
      NothingAt(p, i);
      m := BodyWasSpelled(p, i, "", NoFlags());
    }
  }

  /** A set is accepted, with its closing bracket at `j` and these flags, if and only if the text up to there spells a set
      with these flags. */
  lemma ReadsExactlySets(p: Text, i: nat, j: nat, cs: Flags)
    requires i <= |p|
    ensures SetAt(p, i) == Some((j, cs)) <==>
            exists m: CharSet :: SpellsSet(p, i, m, j) && AllSound(m.elements) && FlagsOf(m) == cs
  {
    hide SetAt, FlagsOf, AllSound, SoundRaw, Spells, HasAt;
    if SetAt(p, i) == Some((j, cs)) {
      var m := SetWasSpelled(p, i);
      SetIsRead(p, i, m, j);
    }
    if m: CharSet :| SpellsSet(p, i, m, j) && AllSound(m.elements) && FlagsOf(m) == cs {
      SetIsRead(p, i, m, j);
    }
  }

  // ---------- what the flags mean ----------

  /** What a set lists, negated or not: its bytes and all its classes. */
  predicate Listed(cs: Flags, x: char)
  {
    x as int < 256 && (cs[x as int] || exists k :: ALNUM <= k <= UPPER && cs[k] && InClass(k, x))
  }

  lemma UnionIsListed(cs: Flags, x: char)
    ensures InUnion(cs, x) <==> x as int < 256 && Listed(cs, x) != cs[NEGATE]
  {
  }

  lemma PutByte(cs: Flags, c: char, x: char)
    requires c as int < 256 && x as int < 256
    ensures Listed(cs[c as int := true], x) <==> x == c || Listed(cs, x)
    ensures cs[c as int := true][NEGATE] == cs[NEGATE]
  {
    hide InClass;
    var cs1: Flags := cs[c as int := true];
    assert forall k :: ALNUM <= k <= UPPER ==> cs1[k] == cs[k];
  }

  lemma PutRange(cs: Flags, c: char, d: char, x: char)
    requires c <= d && d as int < 256 && x as int < 256
    ensures var cs1 := Fill(cs, c as int, d as int);
            cs1[NEGATE] == cs[NEGATE] && (Listed(cs1, x) <==> c <= x <= d || Listed(cs, x))
  {
    hide InClass;
    var cs1 := Fill(cs, c as int, d as int);
    assert forall k :: ALNUM <= k <= UPPER ==> cs1[k] == cs[k];
  }

  lemma PutClass(cs: Flags, k: nat, x: char)
    requires ALNUM <= k <= UPPER && x as int < 256
    ensures cs[k := true][NEGATE] == cs[NEGATE]
    ensures Listed(cs[k := true], x) <==> InClass(k, x) || Listed(cs, x)
  {
    hide InClass;
    var cs1: Flags := cs[k := true];
    assert cs1[k];
    assert forall n :: ALNUM <= n <= UPPER && n != k ==> cs1[n] == cs[n];
  }

  lemma KeywordIsClass(word: string)
    ensures Keyword(word).Some? ==> ALNUM <= Keyword(word).value <= UPPER
  {
  }

  lemma PutMeans(e: Element, cs: Flags, x: char)
    requires Sound(e) && x as int < 256
    ensures Put(e, cs)[NEGATE] == cs[NEGATE] && (Listed(Put(e, cs), x) <==> Holds(e, x) || Listed(cs, x))
  {
    hide Listed, Keyword, InClass;
    match e
    case Byte(c) => PutByte(cs, c, x);
    case Escaped(c) => PutByte(cs, c, x);
    case Range(_, c, _, d) =>
      AlnumIsByte(d);
      PutByte(cs, c, x);
      PutRange(cs[c as int := true], c, d, x);
    case Class(word) =>
      KeywordIsClass(word);
      PutClass(cs, Keyword(word).value, x);
  }

  predicate SomeHolds(es: seq<Element>, x: char)
  {
    exists k :: 0 <= k < |es| && Holds(es[k], x)
  }

  lemma SomeHoldsUnfolds(es: seq<Element>, x: char)
    requires es != []
    ensures SomeHolds(es, x) <==> Holds(es[0], x) || SomeHolds(es[1..], x)
  {
    hide Holds;
    if k :| 0 <= k < |es| && Holds(es[k], x) {
      if k > 0 {
        assert es[1..][k - 1] == es[k];
      }
    }
    if SomeHolds(es[1..], x) {
      var k :| 0 <= k < |es[1..]| && Holds(es[1..][k], x);
      assert es[k + 1] == es[1..][k];
    }
  }

  lemma {:induction false} PutAllMeans(es: seq<Element>, cs: Flags, x: char)
    requires AllSound(es) && x as int < 256
    ensures PutAll(es, cs)[NEGATE] == cs[NEGATE]
    ensures Listed(PutAll(es, cs), x) <==> SomeHolds(es, x) || Listed(cs, x)
  {
    hide Listed, Put, Holds, Sound, SomeHolds;
    if es != [] {
      assert Sound(es[0]);
      PutMeans(es[0], cs, x);
      SomeHoldsUnfolds(es, x);
      PutAllMeans(es[1..], Put(es[0], cs), x);
    } else {
      NoneHolds(x);
    }
  }

  lemma NoneHolds(x: char)
    ensures !SomeHolds([], x)
  {
  }

  lemma {:induction false} PutRawMeans(s: string, cs: Flags, x: char)
    requires (forall k :: 0 <= k < |s| ==> s[k] as int < 256) && x as int < 256
    ensures PutRaw(s, cs)[NEGATE] == cs[NEGATE]
    ensures Listed(PutRaw(s, cs), x) <==> x in s || Listed(cs, x)
  {
    hide Listed;
    if s != "" {
      PutByte(cs, s[0], x);
      PutRawMeans(s[1..], cs[s[0] as int := true], x);
      assert s == [s[0]] + s[1..];
    }
  }

  lemma NothingListed(negate: bool, x: char)
    ensures !Listed(NoFlags()[NEGATE := negate], x)
  {
  }

  /** The flags that were read mean the union of what the set lists, or all bytes but those. */
  lemma FlagsMeanTheSet(m: CharSet, x: char)
    requires SoundHead(m) && AllSound(m.elements)
    ensures InUnion(FlagsOf(m), x) <==> Means(m, x)
  {
    hide Listed, Holds, InUnion, PutAll, SomeHolds, AllSound;
    UnionIsListed(FlagsOf(m), x);
    if x as int < 256 {
      var cs := NoFlags()[NEGATE := m.negation != ""];
      NothingListed(m.negation != "", x);
      match m.opening {
        case Plain =>
          PutAllMeans(m.elements, cs, x);
        case Bracket(raw) =>
          PutByte(cs, ']', x);
          PutRawMeans(raw, cs[']' as int := true], x);
          PutAllMeans(m.elements, PutRaw(raw, cs[']' as int := true]), x);
      }
      ListsUnfolds(m, x);
    }
  }

  lemma ListsUnfolds(m: CharSet, x: char)
    ensures Lists(m, x) <==> x in Start(m.opening) || SomeHolds(m.elements, x)
  {
  }

  /** What the matcher accepts for a spelled set: the bytes the set means, if the first class it consults holds every byte
      of the others that is not listed itself - and then only. */
  lemma MatcherReadsTheSet(p: Text, i: nat, m: CharSet, j: nat)
    requires i < |p| && p[i] == '[' && SpellsSet(p, i + 1, m, j)
    ensures ItemAt(p, i).0.OneOf? && ItemAt(p, i).1 == j + 1
    ensures var cs := ItemAt(p, i).0.flags;
            (forall x: char :: Fits(ItemAt(p, i).0, x) <==> Means(m, x)) <==>
            (forall k: nat, x: char :: ALNUM <= k <= UPPER && cs[k] && InClass(k, x) && !cs[x as int]
                                       ==> InClass(FirstClass(cs), x))
  {
    hide InClass, FirstClass, InSet, InUnion, Means, FlagsOf, SpellsSet, SoundRaw;
    SetIsRead(p, i + 1, m, j);
    SpelledHead(p, i + 1, m, j);
    var cs := FlagsOf(m);
    SetIsUnionExactly(cs);
    forall x: char ensures InUnion(cs, x) <==> Means(m, x) {
      FlagsMeanTheSet(m, x);
    }
  }

  lemma SpelledHead(p: Text, i: nat, m: CharSet, j: nat)
    requires SpellsSet(p, i, m, j)
    ensures SoundHead(m)
  {
  }

  // ---------- printing a set ----------

  /** Elements printed without a bare byte: these spell what they say whatever follows them. */
  predicate Quoted(es: seq<Element>)
  {
    forall k :: 0 <= k < |es| ==> Sound(es[k]) && !es[k].Byte?
  }

  lemma NeverADash(e: Element)
    requires Sound(e) && !e.Byte?
    ensures |Print(e)| > 0 && Print(e)[0] != '-'
  {
  }

  lemma {:induction false} QuotedSpells(p: Text, i: nat, es: seq<Element>, j: nat)
    requires Quoted(es) && i <= j < |p| && p[j] == ']' && p[i..j] == PrintAll(es)
    ensures Spells(p, i, es, j) && p[i] != '-'
    decreases |es|
  {
    hide Print, Sound;
    if es != [] {
      var e, rest := es[0], es[1..];
      var n := i + |Print(e)|;
      assert Sound(e) && !e.Byte?;
      NeverADash(e);
      assert p[i..n] == p[i..j][..|Print(e)|];
      assert p[n..j] == p[i..j][|Print(e)|..];
      assert p[i..j][0] == p[i];
      QuotedSpells(p, n, rest, j);
    }
  }

  lemma QuotedHead(m: CharSet)
    requires Quoted(m.elements) && m.elements != [] && m.negation in {"", "^", "!"} && m.opening.Plain?
    ensures SoundHead(m) && AllSound(m.elements)
  {
  }

  /** Where the closing bracket of a printed set is found, and the flags that are read. */
  lemma PrintedSetFlags(before: Text, negation: string, es: seq<Element>, after: Text, p: Text)
    requires Quoted(es) && es != [] && negation in {"", "^", "!"}
    requires p == before + negation + PrintAll(es) + "]" + after
    ensures var m := CharSet(negation, Plain, es);
            var j := |before| + |negation| + |PrintAll(es)|;
            && SoundHead(m) && AllSound(es) && j < |p| && p[j..] == "]" + after
            && SetAt(p, |before|) == Some((j, FlagsOf(m)))
  {
    hide Spells, Sound, Print, PrintAll, FlagsOf, SetAt, AllSound, Quoted, HasAt;
    var n := |before| + |negation|;
    var j := n + |PrintAll(es)|;
    var m := CharSet(negation, Plain, es);
    Thirds(before, negation, PrintAll(es), "]" + after, p);
    assert p[j] == p[j..][0];
    QuotedSpells(p, n, es, j);
    QuotedHead(m);
    HasAtIs(p, |before|, negation);
    NothingAt(p, n);
    SetIsRead(p, |before|, m, j);
  }

  lemma Thirds(a: string, b: string, c: string, d: string, p: string)
    requires p == a + b + c + d
    ensures |a + b + c| <= |p| && p[|a|..|a| + |b|] == b && p[|a| + |b|..|a + b + c|] == c && p[|a + b + c|..] == d
  {
  }

  lemma HasAtIs(p: Text, i: nat, s: string)
    requires i + |s| <= |p| && p[i..i + |s|] == s
    ensures HasAt(p, i, s)
  {
  }

  /** Any set of escaped bytes, ranges and classes can be printed; the printed set is read back whole, its closing bracket
      is found, and its flags mean the union of its elements or all other bytes. */
  lemma PrintedSetIsRead(before: Text, negation: string, es: seq<Element>, after: Text, p: Text)
    requires Quoted(es) && es != [] && negation in {"", "^", "!"}
    requires p == before + negation + PrintAll(es) + "]" + after
    ensures SetAt(p, |before|).Some?
    ensures var (j, cs) := SetAt(p, |before|).value;
            && p[j..] == "]" + after
            && forall x: char :: InUnion(cs, x) <==> x as int < 256 && SomeHolds(es, x) != (negation != "")
  {
    hide Spells, Sound, Print, PrintAll, SomeHolds, InUnion, FlagsOf, SetAt, AllSound, Quoted, HasAt;
    var m := CharSet(negation, Plain, es);
    PrintedSetFlags(before, negation, es, after, p);
    forall x: char ensures InUnion(FlagsOf(m), x) <==> x as int < 256 && SomeHolds(es, x) != (negation != "") {
      FlagsMeanTheSet(m, x);
      ListsUnfolds(m, x);
    }
  }

  const DIGIT_UPPER: seq<Element> := [Class("digit"), Class("upper")]

  lemma DigitUpperPrinted()
    ensures PrintAll(DIGIT_UPPER) == "[:digit:][:upper:]" && Quoted(DIGIT_UPPER)
  {
    assert DIGIT_UPPER[1..] == [Class("upper")];
    assert PrintAll([Class("upper")]) == "[:upper:]" + PrintAll([]);
    assert "[:digit:][:upper:]" == "[:digit:]" + "[:upper:]";
  }

  lemma DigitUpperFlags()
    ensures AllSound(DIGIT_UPPER)
    ensures FlagsOf(CharSet("", Plain, DIGIT_UPPER)) == NoFlags()[DIGIT := true][UPPER := true]
  {
    assert DIGIT_UPPER[1..] == [Class("upper")];
    assert NoFlags()[NEGATE := false] == NoFlags();
    assert PutAll([Class("upper")], NoFlags()[DIGIT := true]) == NoFlags()[DIGIT := true][UPPER := true];
  }

  lemma DigitUpperIsRead(p: Text)
    requires p == "[" + "[:digit:][:upper:]" + "]"
    ensures ItemAt(p, 0) == (OneOf(NoFlags()[DIGIT := true][UPPER := true]), |p|)
  {
    var j := |p| - 1;
    DigitUpperPrinted();
    DigitUpperFlags();
    assert p[1..j] == "[:digit:][:upper:]";
    assert p[0] == '[' && p[j] == ']';
    hide Print, PrintAll, Quoted, Spells, SetAt, FlagsOf, AllSound;
    QuotedSpells(p, 1, DIGIT_UPPER, j);
    NothingAt(p, 1);
    SetIsRead(p, 1, CharSet("", Plain, DIGIT_UPPER), j);
  }

  /** A set that names two classes need not be their union: `[[:digit:][:upper:]]` does not match an upper-case letter,
      because the matcher looks at the digits only. */
  lemma TwoClassesAreNotUnion(p: Text)
    requires p == "[" + "[:digit:][:upper:]" + "]"
    ensures ItemAt(p, 0).0.OneOf? && InUnion(ItemAt(p, 0).0.flags, 'A') && !Matches(Items(p, 0), "A")
  {
    DigitUpperIsRead(p);
    hide ItemAt;
    var cs: Flags := NoFlags()[DIGIT := true][UPPER := true];
    assert cs[UPPER] && InClass(UPPER, 'A');
    assert !Fits(OneOf(cs), 'A');
    assert Items(p, 0)[0] == OneOf(cs);
  }
}
