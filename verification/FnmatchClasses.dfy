/** What single patterns match, byte by byte: classes, ranges, escapes and wildcards spelled out (curl/lib/curl_fnmatch.c,
    curl/lib/curl_ctype.h). */
module FnmatchClasses {
  import opened CString
  import opened Fnmatch
  import opened FnmatchSets

  /** The bytes of the class with this name, as numbers. */
  predicate NamedBytes(word: string, n: int)
  {
    match word
    case "digit" => 48 <= n <= 57
    case "upper" => 65 <= n <= 90
    case "lower" => 97 <= n <= 122
    case "alpha" => 65 <= n <= 90 || 97 <= n <= 122
    case "alnum" => 48 <= n <= 57 || 65 <= n <= 90 || 97 <= n <= 122
    case "xdigit" => 48 <= n <= 57 || 65 <= n <= 70 || 97 <= n <= 102
    case "blank" => n == 9 || n == 32
    case "space" => 9 <= n <= 13 || n == 32
    case "print" => 9 <= n <= 13 || 32 <= n <= 126
    case "graph" => 9 <= n <= 13 || 33 <= n <= 126
    case _ => false
  }

  const WORDS: seq<string> :=
    ["digit", "upper", "lower", "alpha", "alnum", "xdigit", "blank", "space", "print", "graph"]

  /** One class alone in a set, as flags. */
  lemma OneClassFlags(word: string, c: char)
    requires Keyword(word).Some? && c as int < 256
    ensures AllSound([Class(word)])
    ensures var cs := FlagsOf(CharSet("", Plain, [Class(word)]));
            InSet(cs, c) <==> InClass(Keyword(word).value, c)
  {
    var es := [Class(word)];
    var m := CharSet("", Plain, es);
    KeywordIsClass(word);
    hide Keyword;
    assert NoFlags()[NEGATE := false] == NoFlags();
    assert es[1..] == [];
    var cs := FlagsOf(m);
    assert PutAll([], Put(es[0], NoFlags())) == Put(es[0], NoFlags());
    assert cs == NoFlags()[Keyword(word).value := true];
    OneClassIsUnion(cs, c);
    assert cs[Keyword(word).value];
    hide InClass;
    if k :| ALNUM <= k <= UPPER && cs[k] && InClass(k, c) {
      assert k == Keyword(word).value;
    }
  }

  lemma ClassMeans(word: string, c: char)
    requires word in WORDS
    ensures Keyword(word).Some? && (InClass(Keyword(word).value, c) <==> NamedBytes(word, c as int))
  {
    assert word == WORDS[0] || word == WORDS[1] || word == WORDS[2] || word == WORDS[3] || word == WORDS[4]
        || word == WORDS[5] || word == WORDS[6] || word == WORDS[7] || word == WORDS[8] || word == WORDS[9];
  }

  /** There are no other class names. */
  lemma OnlyTheseWords(word: string)
    ensures Keyword(word).Some? <==> word in WORDS
  {
    if word in WORDS {
      ClassMeans(word, 'a');
    } else {
      forall k | 0 <= k < 10 ensures WORDS[k] != word {
        assert WORDS[k] in WORDS;
      }
      assert WORDS[0] != word && WORDS[1] != word && WORDS[2] != word && WORDS[3] != word && WORDS[4] != word;
      assert WORDS[5] != word && WORDS[6] != word && WORDS[7] != word && WORDS[8] != word && WORDS[9] != word;
    }
  }

  lemma OneClassIsRead(word: string, p: Text)
    requires Keyword(word).Some? && p == "[" + ("[:" + word + ":]") + "]"
    ensures AllSound([Class(word)])
    ensures ItemAt(p, 0) == (OneOf(FlagsOf(CharSet("", Plain, [Class(word)]))), |p|)
  {
    hide Keyword, Spells, FlagsOf, SetAt, Print, PrintAll, Quoted, AllSound, SpellsSet, SoundHead;
    OneClassIsSpelled(word, p);
    SetIsRead(p, 1, CharSet("", Plain, [Class(word)]), |p| - 1);
  }

  lemma OneClassIsSpelled(word: string, p: Text)
    requires Keyword(word).Some? && p == "[" + ("[:" + word + ":]") + "]"
    ensures |p| > 2 && p[0] == '[' && SpellsSet(p, 1, CharSet("", Plain, [Class(word)]), |p| - 1)
  {
    var es := [Class(word)];
    var t := "[:" + word + ":]";
    assert p[0] == '[' && p[|p| - 1] == ']' && p[1..|p| - 1] == t;
    hide Keyword, Spells, Print, PrintAll, Quoted, AllSound;
    OneClassPrinted(word);
    OneClassIsSound(word);
    QuotedSpells(p, 1, es, |p| - 1);
    NothingAt(p, 1);
  }

  lemma OneClassPrinted(word: string)
    ensures PrintAll([Class(word)]) == "[:" + word + ":]"
  {
    assert [Class(word)][1..] == [];
    assert PrintAll([]) == "";
  }

  lemma OneClassIsSound(word: string)
    requires Keyword(word).Some?
    ensures Quoted([Class(word)]) && AllSound([Class(word)])
    ensures SoundHead(CharSet("", Plain, [Class(word)]))
  {
    hide Keyword;
  }

  /** The pattern `[[:word:]]` matches a string of one byte if and only if that byte is in the class. */
  lemma ClassPattern(word: string, p: Text, c: char)
    requires word in WORDS && p == "[" + ("[:" + word + ":]") + "]" && 0 < c as int < 256
    ensures Matches(Items(p, 0), [c]) <==> NamedBytes(word, c as int)
  {
    hide Keyword, InClass, InSet, NamedBytes, FlagsOf, ItemAt, Items, Matches, AllSound;
    ClassMeans(word, c);
    OneClassFlags(word, c);
    OneClassIsRead(word, p);
    OneItem(p, [c]);
  }

  /** A pattern of one item that takes a byte. */
  lemma OneItem(p: Text, s: string)
    requires p != "" && ItemAt(p, 0).1 == |p| && !ItemAt(p, 0).0.Star?
    ensures Matches(Items(p, 0), s) <==> |s| == 1 && Fits(ItemAt(p, 0).0, s[0])
  {
    hide ItemAt, Fits;
    var item := ItemAt(p, 0).0;
    assert Items(p, 0) == [item] + Items(p, |p|);
    assert Items(p, 0)[1..] == [];
  }

  // ---------- whole patterns ----------

  /** What a pattern is written with: a byte behind a backslash, a wildcard, or a set. */
  datatype Piece =
    | Just(c: char)
    | AnyByte
    | AnyBytes
    | OneByteOf(negation: string, elements: seq<Element>)

  /** A piece that can be printed; a set names at most one class. */
  predicate Printable(x: Piece)
  {
    match x
    case Just(c) => 0 < c as int < 256
    case OneByteOf(negation, es) =>
      Quoted(es) && es != [] && negation in {"", "^", "!"}
      && forall i, k :: 0 <= i < k < |es| ==> !(es[i].Class? && es[k].Class?)
    case _ => true
  }

  function PrintPiece(x: Piece): string
  {
    match x
    case Just(c) => ['\\', c]
    case AnyByte => "?"
    case AnyBytes => "*"
    case OneByteOf(negation, es) => "[" + negation + PrintAll(es) + "]"
  }

  function PrintPattern(ps: seq<Piece>): string
  {
    if ps == [] then "" else PrintPiece(ps[0]) + PrintPattern(ps[1..])
  }

  /** One byte fits a piece. */
  predicate Takes(x: Piece, c: char)
  {
    match x
    case Just(d) => c == d
    case AnyByte => true
    case AnyBytes => false
    case OneByteOf(negation, es) => c as int < 256 && SomeHolds(es, c) != (negation != "")
  }

  /** The string is written out as the pieces say: a byte for each, any bytes for each star. */
  ghost predicate Describes(ps: seq<Piece>, s: string)
    decreases |ps|
  {
    if ps == [] then s == ""
    else if ps[0].AnyBytes? then exists k :: 0 <= k <= |s| && Describes(ps[1..], s[k..])
    else s != "" && Takes(ps[0], s[0]) && Describes(ps[1..], s[1..])
  }

  predicate NoClass(es: seq<Element>)
  {
    forall k :: 0 <= k < |es| ==> !es[k].Class?
  }

  predicate NoFlag(cs: Flags)
  {
    forall k :: ALNUM <= k <= UPPER ==> !cs[k]
  }

  predicate OneFlag(cs: Flags)
  {
    forall j, k :: ALNUM <= j < k <= UPPER ==> !(cs[j] && cs[k])
  }

  lemma PutFlags(e: Element, cs: Flags)
    requires Sound(e)
    ensures !e.Class? ==> forall k :: ALNUM <= k <= UPPER ==> Put(e, cs)[k] == cs[k]
    ensures NoFlag(cs) ==> OneFlag(Put(e, cs))
  {
    hide Keyword;
  }

  lemma {:induction false} FewFlags(es: seq<Element>, cs: Flags)
    requires AllSound(es) && OneFlag(cs)
    requires if NoFlag(cs) then forall i, k :: 0 <= i < k < |es| ==> !(es[i].Class? && es[k].Class?) else NoClass(es)
    ensures OneFlag(PutAll(es, cs))
  {
    hide Sound, Put;
    if es != [] {
      assert Sound(es[0]);
      PutFlags(es[0], cs);
      forall k | 0 <= k < |es| - 1 ensures es[1..][k] == es[k + 1] {
      }
      FewFlags(es[1..], Put(es[0], cs));
    }
  }

  /** A printed set where a pattern stands is one item, which takes the bytes of the set. */
  lemma SetPiece(before: Text, x: Piece, after: Text, p: Text)
    requires x.OneByteOf? && Printable(x) && p == before + PrintPiece(x) + after
    ensures var i := |before|;
            && i < |p| && ItemAt(p, i).0.OneOf? && ItemAt(p, i).1 == i + |PrintPiece(x)|
            && forall c: char :: Fits(ItemAt(p, i).0, c) <==> Takes(x, c)
  {
    hide Quoted, AllSound, Spells, SetAt, FlagsOf, InUnion, InSet, SomeHolds, PrintAll;
    var i := |before|;
    var es := x.elements;
    SetPieceText(before, x, after, p);
    var head: Text := p[..i + 1];
    SetPieceFlags(x);
    PrintedSetIsRead(head, x.negation, es, after, p);
    PrintedSetFlags(head, x.negation, es, after, p);
    var cs := SetAt(p, i + 1).value.1;
    forall c: char ensures Fits(ItemAt(p, i).0, c) <==> Takes(x, c) {
      OneClassIsUnion(cs, c);
    }
  }

  lemma SetPieceText(before: Text, x: Piece, after: Text, p: Text)
    requires x.OneByteOf? && p == before + PrintPiece(x) + after
    ensures var i := |before|;
            i < |p| && p[i] == '[' && p == p[..i + 1] + x.negation + PrintAll(x.elements) + "]" + after
  {
    hide PrintAll;
    var i := |before|;
    assert p[i] == PrintPiece(x)[0] == '[';
    assert p[..i + 1] == before + "[";
  }

  lemma SetPieceFlags(x: Piece)
    requires x.OneByteOf? && Printable(x)
    ensures var m := CharSet(x.negation, Plain, x.elements);
            SoundHead(m) && AllSound(m.elements) && OneFlag(FlagsOf(m))
  {
    QuotedHead(CharSet(x.negation, Plain, x.elements));
    hide Sound, Put;
    FewFlags(x.elements, NoFlags()[NEGATE := x.negation != ""]);
  }

  /** Every printed piece is one item of the pattern. */
  lemma PieceIsItem(before: Text, x: Piece, after: Text, p: Text)
    requires Printable(x) && p == before + PrintPiece(x) + after
    ensures var i := |before|;
            && i < |p| && ItemAt(p, i).1 == i + |PrintPiece(x)|
            && (x.AnyBytes? <==> ItemAt(p, i).0.Star?)
            && (x.AnyByte? <==> ItemAt(p, i).0.Any?)
            && (!x.AnyBytes? ==> forall c: char :: Fits(ItemAt(p, i).0, c) <==> Takes(x, c))
  {
    if x.OneByteOf? {
      SetPiece(before, x, after, p);
    } else {
      assert p[|before|..|before| + |PrintPiece(x)|] == PrintPiece(x);
      assert p[|before|] == PrintPiece(x)[0];
      if x.Just? {
        assert p[|before| + 1] == PrintPiece(x)[1];
      }
    }
  }

  lemma {:induction false} PrintIsText(ps: seq<Piece>)
    requires forall k :: 0 <= k < |ps| ==> Printable(ps[k])
    ensures forall i :: 0 <= i < |PrintPattern(ps)| ==> 0 < PrintPattern(ps)[i] as int < 256
  {
    if ps != [] {
      assert Printable(ps[0]);
      PieceIsText(ps[0]);
      hide PrintPiece, Printable;
      PrintIsText(ps[1..]);
    }
  }

  lemma PieceIsText(x: Piece)
    requires Printable(x)
    ensures forall i :: 0 <= i < |PrintPiece(x)| ==> 0 < PrintPiece(x)[i] as int < 256
  {
    if x.OneByteOf? {
      ElementsAreText(x.elements);
    }
  }

  lemma {:induction false} ElementsAreText(es: seq<Element>)
    requires Quoted(es)
    ensures forall i :: 0 <= i < |PrintAll(es)| ==> 0 < PrintAll(es)[i] as int < 256
  {
    if es != [] {
      assert Sound(es[0]);
      ElementIsText(es[0]);
      hide Print, Sound;
      ElementsAreText(es[1..]);
    }
  }

  lemma ElementIsText(e: Element)
    requires Sound(e)
    ensures forall i :: 0 <= i < |Print(e)| ==> 0 < Print(e)[i] as int < 256
  {
    if e.Class? {
      KeywordIsLower(e.word);
    } else if e.Range? {
      AlnumIsByte(e.first);
      AlnumIsByte(e.last);
    }
    hide Keyword;
  }

  /** A printed pattern matches exactly the strings that its pieces describe. */
  lemma {:induction false} PatternMatches(before: Text, ps: seq<Piece>, p: Text, s: string)
    requires (forall k :: 0 <= k < |ps| ==> Printable(ps[k])) && p == before + PrintPattern(ps)
    ensures Matches(Items(p, |before|), s) <==> Describes(ps, s)
    decreases |ps|
  {
    hide ItemAt, Printable, PrintPiece, Fits, Takes;
    if ps != [] {
      var x, rest := ps[0], ps[1..];
      assert Printable(x);
      PrintIsText(rest);
      var after: Text := PrintPattern(rest);
      assert p == before + PrintPiece(x) + after;
      PieceIsItem(before, x, after, p);
      var i := |before|;
      var head: Text := p[..i + |PrintPiece(x)|];
      assert head == before + PrintPiece(x) && p == head + after;
      var items := Items(p, i);
      assert items == [ItemAt(p, i).0] + Items(p, |head|);
      assert items[1..] == Items(p, |head|);
      if x.AnyBytes? {
        forall k | 0 <= k <= |s| ensures Matches(items[1..], s[k..]) <==> Describes(rest, s[k..]) {
          PatternMatches(head, rest, p, s[k..]);
        }
      } else if s != "" {
        PatternMatches(head, rest, p, s[1..]);
      }
    }
  }

  /** The groups of stars: stars with nothing but stars and question marks between them are one. */
  function StarGroups(ps: seq<Piece>, grouped: bool): nat
  {
    if ps == [] then 0
    else if ps[0].AnyBytes? then (if grouped then 0 else 1) + StarGroups(ps[1..], true)
    else StarGroups(ps[1..], grouped && ps[0].AnyByte?)
  }

  lemma {:induction false} PatternGroups(before: Text, ps: seq<Piece>, p: Text)
    requires (forall k :: 0 <= k < |ps| ==> Printable(ps[k])) && p == before + PrintPattern(ps)
    ensures Groups(Items(p, |before|)) == StarGroups(ps, false)
    ensures Groups(AfterGroup(Items(p, |before|))) == StarGroups(ps, true)
    decreases |ps|
  {
    hide ItemAt, Printable, PrintPiece, Fits, Takes;
    if ps != [] {
      var x, rest := ps[0], ps[1..];
      assert Printable(x);
      PrintIsText(rest);
      var after: Text := PrintPattern(rest);
      assert p == before + PrintPiece(x) + after;
      PieceIsItem(before, x, after, p);
      var i := |before|;
      var head: Text := p[..i + |PrintPiece(x)|];
      assert head == before + PrintPiece(x) && p == head + after;
      assert Items(p, i) == [ItemAt(p, i).0] + Items(p, |head|);
      assert Items(p, i)[1..] == Items(p, |head|);
      PatternGroups(head, rest, p);
    }
  }

  /** `Curl_fnmatch` on a printed pattern: a match if and only if the pieces describe the string and their stars make at
      most two groups. */
  method MatchPrinted(ps: seq<Piece>, p: Text, s: Text) returns (found: bool)
    requires (forall k :: 0 <= k < |ps| ==> Printable(ps[k])) && p == PrintPattern(ps)
    ensures found <==> Describes(ps, s) && StarGroups(ps, false) <= 2
  {
    var answer := CurlFnmatch(Some(p), Some(s));
    assert p == "" + PrintPattern(ps);
    PatternMatches("", ps, p, s);
    PatternGroups("", ps, p);
    found := answer.Match?;
  }

  /** A set that is not written as one makes a pattern that matches nothing. */
  lemma BadSetMatchesNothing(p: Text, i: nat, s: string)
    requires i < |p| && p[i] == '[' && SetAt(p, i + 1).None?
    ensures !Matches(Items(p, i), s)
  {
    hide SetAt;
    assert ItemAt(p, i).0 == Bad;
  }

  /** A pattern without the four special bytes matches itself and nothing else. */
  lemma {:induction false} PlainPattern(p: Text, i: nat, s: string)
    requires i <= |p| && forall k :: 0 <= k < |p| ==> p[k] !in "*?[\\"
    ensures Matches(Items(p, i), s) <==> s == p[i..]
    decreases |p| - i
  {
    if i < |p| {
      assert p[i] !in "*?[\\" && p[i] != "*?[\\"[0] && p[i] != "*?[\\"[1] && p[i] != "*?[\\"[2] && p[i] != "*?[\\"[3];
      assert ItemAt(p, i) == (One(p[i]), i + 1);
      assert Items(p, i)[1..] == Items(p, i + 1);
      if s != "" {
        PlainPattern(p, i + 1, s[1..]);
        assert s == [s[0]] + s[1..] && p[i..] == [p[i]] + p[i + 1..];
      }
    }
  }
}
