/** The wildcard matcher (curl/lib/curl_fnmatch.c), proved against a declarative match relation. */
module Fnmatch {
  import opened CString

  const NUL: char := 0 as char

  /** A C string: bytes other than NUL. */
  type Text = s: string | forall i :: 0 <= i < |s| ==> 0 < s[i] as int < 256 witness ""

  /** The byte at `i`; the terminating NUL at the end. */
  function At(s: Text, i: nat): (c: char)
    ensures c as int < 256
    ensures c == NUL <==> i >= |s|
  {
    if i < |s| then s[i] else NUL
  }

  // ---------- character sets ----------

  predicate IsUpper(c: char) { 'A' <= c <= 'Z' }
  predicate IsLower(c: char) { 'a' <= c <= 'z' }
  predicate IsDigit(c: char) { '0' <= c <= '9' }
  predicate IsAlpha(c: char) { IsLower(c) || IsUpper(c) }
  predicate IsAlnum(c: char) { IsDigit(c) || IsAlpha(c) }
  predicate IsXdigit(c: char) { IsDigit(c) || 'a' <= c <= 'f' || 'A' <= c <= 'F' }
  predicate IsSpace(c: char) { IsBlank(c) || 0xa <= c as int <= 0xd }
  predicate IsPrint(c: char) { 9 <= c as int <= 0xd || ' ' <= c <= '~' }
  predicate IsGraph(c: char) { 9 <= c as int <= 0xd || ' ' < c <= '~' }

  // The charset array: one flag for each byte, then the negation flag and the keyword flags.
  const NEGATE: nat := 256
  const ALNUM: nat := 257
  const DIGIT: nat := 258
  const XDIGIT: nat := 259
  const ALPHA: nat := 260
  const PRINT: nat := 261
  const BLANK: nat := 262
  const LOWER: nat := 263
  const GRAPH: nat := 264
  const SPACE: nat := 265
  const UPPER: nat := 266
  const CHSET_SIZE: nat := 271

  type Flags = f: seq<bool> | |f| == CHSET_SIZE witness seq(CHSET_SIZE, _ => false)

  datatype CharClass = Other | Digit | Upper | Lower

  function ClassOf(c: char): CharClass
  {
    if IsUpper(c) then Upper else if IsLower(c) then Lower else if IsDigit(c) then Digit else Other
  }

  function Keyword(word: string): Option<nat>
  {
    if word == "digit" then Some(DIGIT)
    else if word == "alnum" then Some(ALNUM)
    else if word == "alpha" then Some(ALPHA)
    else if word == "xdigit" then Some(XDIGIT)
    else if word == "print" then Some(PRINT)
    else if word == "graph" then Some(GRAPH)
    else if word == "space" then Some(SPACE)
    else if word == "blank" then Some(BLANK)
    else if word == "upper" then Some(UPPER)
    else if word == "lower" then Some(LOWER)
    else None
  }

  /** The lower-case letters from `i` on. */
  function LowerRun(p: Text, i: nat): (j: nat)
    requires i <= |p|
    ensures i <= j <= |p| && !IsLower(At(p, j))
    ensures forall x :: i <= x < j ==> IsLower(p[x])
    decreases |p| - i
  {
    if IsLower(At(p, i)) then LowerRun(p, i + 1) else i
  }

  /** A keyword followed by ":]": its flag and the place after it. */
  function KeywordAt(p: Text, i: nat): (r: Option<(nat, nat)>)
    requires i <= |p|
    ensures r.Some? ==> i < r.value.1 <= |p| && NEGATE < r.value.0 < CHSET_SIZE
  {
    var j := LowerRun(p, i);
    if At(p, j) == ':' && At(p, j + 1) == ']' then
      var k := Keyword(p[i..j]);
      if k.Some? then Some((k.value, j + 2)) else None
    else None
  }

  /** `cs` with the bytes from `c` to `e` set. */
  function Fill(cs: Flags, c: nat, e: nat): (r: Flags)
    requires e < 256
    ensures forall x :: 0 <= x < CHSET_SIZE ==> r[x] == (cs[x] || c <= x <= e)
  {
    seq(CHSET_SIZE, x requires 0 <= x < CHSET_SIZE => cs[x] || c <= x <= e)
  }

  /** One byte of a set, or a range within one class of letters or digits; and the place after it. */
  function CharOrRange(p: Text, i: nat, cs: Flags): (r: (nat, Flags))
    requires i < |p|
    ensures i < r.0 <= |p|
  {
    var c := p[i];
    var cs1 := cs[c as int := true];
    if IsAlnum(c) && At(p, i + 1) == '-' then
      var escaped := At(p, i + 2) == '\\';
      var e := if escaped then At(p, i + 3) else At(p, i + 2);
      if e >= c && ClassOf(e) == ClassOf(c) then
        (if escaped then i + 4 else i + 3, Fill(cs1, c as int, e as int))
      else (i + 1, cs1)
    else (i + 1, cs1)
  }

  datatype SetState = Default | RightBr | RightBrLeftBr

  /** The set that starts at `i`, after its opening bracket: its flags and the place of its closing bracket. */
  function SetFrom(p: Text, i: nat, state: SetState, found: bool, cs: Flags): (r: Option<(nat, Flags)>)
    requires i <= |p|
    ensures r.Some? ==> i <= r.value.0 < |p|
    decreases |p| - i
  {
    if i == |p| then None else
    var c := p[i];
    var cs1 := cs[c as int := true];
    match state
    case Default =>
      if c == ']' then
        if found then Some((i, cs)) else SetFrom(p, i + 1, RightBr, true, cs1)
      else if c == '[' then
        var k := if At(p, i + 1) == ':' then KeywordAt(p, i + 2) else None;
        if k.Some? then SetFrom(p, k.value.1, Default, true, cs[k.value.0 := true])
        else SetFrom(p, i + 1, Default, true, cs1)
      else if c == '^' || c == '!' then
        if !found && !cs[NEGATE] then SetFrom(p, i + 1, Default, false, cs[NEGATE := true])
        else SetFrom(p, i + 1, Default, true, cs1)
      else if c == '\\' then
        if i + 1 < |p| then
          var r := CharOrRange(p, i + 1, cs);
          SetFrom(p, r.0, Default, true, r.1)
        else SetFrom(p, i + 1, Default, true, cs1)
      else
        var r := CharOrRange(p, i, cs);
        SetFrom(p, r.0, Default, true, r.1)
    case RightBr =>
      if c == '[' then SetFrom(p, i + 1, RightBrLeftBr, found, cs1)
      else if c == ']' then Some((i, cs))
      else if IsPrint(c) then SetFrom(p, i + 1, Default, found, cs1)
      else None
    case RightBrLeftBr =>
      if c == ']' then Some((i, cs)) else SetFrom(p, i + 1, Default, found, cs1)
  }

  function NoFlags(): Flags
  {
    seq(CHSET_SIZE, _ => false)
  }

  function SetAt(p: Text, i: nat): (r: Option<(nat, Flags)>)
    requires i <= |p|
    ensures r.Some? ==> i <= r.value.0 < |p|
  {
    SetFrom(p, i, Default, false, NoFlags())
  }

  /** Membership as the matcher tests it: a byte flag, else the first keyword flag of this order. */
  predicate InSet(cs: Flags, c: char)
  {
    c as int < 256 &&
    (if cs[c as int] then true
     else if cs[ALNUM] then IsAlnum(c)
     else if cs[ALPHA] then IsAlpha(c)
     else if cs[DIGIT] then IsDigit(c)
     else if cs[XDIGIT] then IsXdigit(c)
     else if cs[PRINT] then IsPrint(c)
     else if cs[SPACE] then IsSpace(c)
     else if cs[UPPER] then IsUpper(c)
     else if cs[LOWER] then IsLower(c)
     else if cs[BLANK] then IsBlank(c)
     else if cs[GRAPH] then IsGraph(c)
     else false) != cs[NEGATE]
  }

  predicate InClass(flag: nat, c: char)
  {
    if flag == ALNUM then IsAlnum(c) else if flag == DIGIT then IsDigit(c) else if flag == XDIGIT then IsXdigit(c)
    else if flag == ALPHA then IsAlpha(c) else if flag == PRINT then IsPrint(c) else if flag == BLANK then IsBlank(c)
    else if flag == LOWER then IsLower(c) else if flag == GRAPH then IsGraph(c) else if flag == SPACE then IsSpace(c)
    else flag == UPPER && IsUpper(c)
  }

  /** The usual meaning of a set: the union of its bytes and of all the classes it names. */
  predicate InUnion(cs: Flags, c: char)
  {
    c as int < 256 && ((cs[c as int] || exists k :: ALNUM <= k <= UPPER && cs[k] && InClass(k, c)) != cs[NEGATE])
  }

  /** A set that names at most one class means the union of what it lists. */
  lemma OneClassIsUnion(cs: Flags, c: char)
    requires forall j, k :: ALNUM <= j < k <= UPPER ==> !(cs[j] && cs[k])
    ensures InSet(cs, c) <==> InUnion(cs, c)
  {
    if c as int < 256 && !cs[c as int] && exists k :: ALNUM <= k <= UPPER && cs[k] {
      var k :| ALNUM <= k <= UPPER && cs[k];
      assert forall j :: ALNUM <= j <= UPPER && cs[j] ==> j == k;
      assert InClass(k, c) <==> exists j :: ALNUM <= j <= UPPER && cs[j] && InClass(j, c);
    }
  }

  /** The one class the matcher consults: the first of its chain of tests that the set names, 0 if it names none. */
  function FirstClass(cs: Flags): nat
  {
    if cs[ALNUM] then ALNUM else if cs[ALPHA] then ALPHA else if cs[DIGIT] then DIGIT else if cs[XDIGIT] then XDIGIT
    else if cs[PRINT] then PRINT else if cs[SPACE] then SPACE else if cs[UPPER] then UPPER else if cs[LOWER] then LOWER
    else if cs[BLANK] then BLANK else if cs[GRAPH] then GRAPH else 0
  }

  lemma OnlyTheFirstClass(cs: Flags, c: char)
    ensures InSet(cs, c) <==> c as int < 256 && ((cs[c as int] || InClass(FirstClass(cs), c)) != cs[NEGATE])
  {
  }

  lemma FirstClassIsNamed(cs: Flags, k: nat)
    requires ALNUM <= k <= UPPER && cs[k]
    ensures ALNUM <= FirstClass(cs) <= UPPER && cs[FirstClass(cs)]
  {
  }

  /** A set means the union of what it lists if and only if the first class of the chain holds every byte that one of its
      classes holds and that is not listed itself. */
  lemma SetIsUnionExactly(cs: Flags)
    ensures (forall c: char :: InSet(cs, c) <==> InUnion(cs, c)) <==>
            (forall k: nat, c: char :: ALNUM <= k <= UPPER && cs[k] && InClass(k, c) && !cs[c as int]
                                       ==> InClass(FirstClass(cs), c))
  {
    hide InSet, FirstClass;
    if forall c: char :: InSet(cs, c) <==> InUnion(cs, c) {
      forall k: nat, c: char | ALNUM <= k <= UPPER && cs[k] && InClass(k, c) && !cs[c as int]
        ensures InClass(FirstClass(cs), c)
      {
        OnlyTheFirstClass(cs, c);
        assert InUnion(cs, c) <==> InSet(cs, c);
      }
    }
    if forall k: nat, c: char :: ALNUM <= k <= UPPER && cs[k] && InClass(k, c) && !cs[c as int]
                                 ==> InClass(FirstClass(cs), c) {
      forall c: char ensures InSet(cs, c) <==> InUnion(cs, c) {
        OnlyTheFirstClass(cs, c);
        if k :| ALNUM <= k <= UPPER && cs[k] && InClass(k, c) {
          FirstClassIsNamed(cs, k);
        } else if InClass(FirstClass(cs), c) {
          SomeClassIsNamed(cs, c);
        }
      }
    }
  }

  lemma SomeClassIsNamed(cs: Flags, c: char)
    requires InClass(FirstClass(cs), c)
    ensures ALNUM <= FirstClass(cs) <= UPPER && cs[FirstClass(cs)]
  {
  }

  // ---------- what a pattern means ----------

  datatype Item = Star | Any | One(c: char) | OneOf(flags: Flags) | Bad

  /** The item at `i` and the place after it. */
  function ItemAt(p: Text, i: nat): (r: (Item, nat))
    requires i < |p|
    ensures i < r.1 <= |p|
  {
    if p[i] == '*' then (Star, i + 1)
    else if p[i] == '?' then (Any, i + 1)
    else if p[i] == '\\' then if i + 1 < |p| then (One(p[i + 1]), i + 2) else (One('\\'), i + 1)
    else if p[i] == '[' then
      var r := SetAt(p, i + 1);
      if r.Some? then (OneOf(r.value.1), r.value.0 + 1) else (Bad, |p|)
    else (One(p[i]), i + 1)
  }

  function Items(p: Text, i: nat): seq<Item>
    requires i <= |p|
    decreases |p| - i
  {
    if i == |p| then [] else [ItemAt(p, i).0] + Items(p, ItemAt(p, i).1)
  }

  predicate Fits(item: Item, c: char)
  {
    match item
    case One(d) => c == d
    case OneOf(flags) => InSet(flags, c)
    case Any => true
    case _ => false
  }

  /** The string is made of one byte for each item, and of any bytes for each star. */
  ghost predicate Matches(items: seq<Item>, s: string)
    decreases |items|
  {
    if items == [] then s == ""
    else if items[0].Star? then exists k :: 0 <= k <= |s| && Matches(items[1..], s[k..])
    else s != "" && Fits(items[0], s[0]) && Matches(items[1..], s[1..])
  }

  /** The items without the stars and question marks they start with. */
  function AfterGroup(items: seq<Item>): (r: seq<Item>)
    ensures |r| <= |items|
  {
    if items != [] && (items[0].Star? || items[0].Any?) then AfterGroup(items[1..]) else items
  }

  /** How many star groups there are: a star with the stars and question marks right after it. */
  function Groups(items: seq<Item>): nat
    decreases |items|
  {
    if items == [] then 0
    else if items[0].Star? then 1 + Groups(AfterGroup(items[1..]))
    else Groups(items[1..])
  }

  // ---------- the set parser, in place ----------

  lemma KeywordIsShort(word: string)
    ensures Keyword(word).Some? ==> |word| <= 6
  {
  }

  /** `parsekeyword`: the loop over a ten-byte buffer. */
  method ParseKeyword(p: Text, i: nat, charset: array<bool>) returns (ok: bool, j: nat)
    requires i <= |p| && charset.Length == CHSET_SIZE
    modifies charset
    ensures ok == KeywordAt(p, i).Some?
    ensures ok ==> j == KeywordAt(p, i).value.1 && charset[..] == old(charset[..])[KeywordAt(p, i).value.0 := true]
    ensures !ok ==> charset[..] == old(charset[..])
  {
    hide Keyword;
    var n, keyword, colon, found := 0, "", false, false;
    j := i;
    while !found
      invariant j == i + n && n <= 10 && j <= |p|
      invariant !colon && !found ==> keyword == p[i..j] && LowerRun(p, i) == LowerRun(p, j)
      invariant colon && !found ==> j > i && keyword == p[i..j - 1] && LowerRun(p, i) == j - 1 && p[j - 1] == ':'
      invariant found ==> colon && j > i + 1 && keyword == p[i..j - 2] && LowerRun(p, i) == j - 2
                          && p[j - 2] == ':' && p[j - 1] == ']'
      decreases |p| - j, !found
    {
      if n >= 10 {
        KeywordIsShort(p[i..LowerRun(p, i)]);
        return false, j;
      }
      var c := At(p, j);
      if !colon {
        if IsLower(c) {
          keyword := keyword + [c];
        } else if c == ':' {
          colon := true;
        } else {
          return false, j;
        }
      } else if c == ']' {
        found := true;
      } else {
        return false, j;
      }
      j := j + 1;
      n := n + 1;
    }
    var flag := Keyword(keyword);
    ok := flag.Some?;
    if ok {
      KeywordRange(keyword);
      charset[flag.value] := true;
    }
  }

  lemma KeywordRange(word: string)
    ensures Keyword(word).Some? ==> NEGATE < Keyword(word).value < CHSET_SIZE
  {
  }

  lemma SameClassBetween(c: char, x: char, e: char)
    requires IsAlnum(c) && ClassOf(e) == ClassOf(c) && c <= x <= e
    ensures ClassOf(x) == ClassOf(c)
  {
  }

  /** `setcharorrange`. */
  method SetCharOrRange(p: Text, i: nat, charset: array<bool>) returns (j: nat)
    requires i < |p| && charset.Length == CHSET_SIZE
    modifies charset
    ensures j == CharOrRange(p, i, old(charset[..])).0 && charset[..] == CharOrRange(p, i, old(charset[..])).1
  {
    var c := p[i];
    charset[c as int] := true;
    j := i + 1;
    if IsAlnum(c) && At(p, i + 1) == '-' {
      var q, endrange := i + 3, At(p, i + 2);
      if endrange == '\\' {
        q, endrange := i + 4, At(p, i + 3);
      }
      if endrange >= c && ClassOf(endrange) == ClassOf(c) {
        ghost var cs1 := charset[..];
        var x := c;
        while x != endrange
          invariant c <= x <= endrange
          invariant charset[..] == Fill(cs1, c as int, x as int)
          decreases endrange as int - x as int
        {
          x := x + 1 as char;
          SameClassBetween(c, x, endrange);
          if ClassOf(x) == ClassOf(c) {
            charset[x as int] := true;
          }
        }
        j := q;
      }
    }
  }

  /** `setcharset`: fills the array and stops on the closing bracket. */
  method SetCharset(p: Text, i: nat, charset: array<bool>) returns (ok: bool, j: nat)
    requires i <= |p| && charset.Length == CHSET_SIZE
    modifies charset
    ensures ok == SetAt(p, i).Some?
    ensures ok ==> SetAt(p, i) == Some((j, charset[..]))
  {
    hide KeywordAt, CharOrRange;
    forall k | 0 <= k < CHSET_SIZE {
      charset[k] := false;
    }
    assert charset[..] == NoFlags();
    var state, found := Default, false;
    j := i;
    while true
      invariant j <= |p| && SetFrom(p, j, state, found, charset[..]) == SetAt(p, i)
      decreases |p| - j
    {
      if j == |p| {
        return false, j;
      }
      var c := p[j];
      match state
      case Default =>
        if c == ']' {
          if found {
            return true, j;
          }
          found, state := true, RightBr;
          charset[c as int] := true;
          j := j + 1;
        } else if c == '[' {
          var ok', j' := false, j;
          if At(p, j + 1) == ':' {
            ok', j' := ParseKeyword(p, j + 2, charset);
          }
          if ok' {
            j := j';
          } else {
            charset[c as int] := true;
            j := j + 1;
          }
          found := true;
        } else if c == '^' || c == '!' {
          if !found {
            if charset[NEGATE] {
              charset[c as int] := true;
              found := true;
            } else {
              charset[NEGATE] := true;
            }
          } else {
            charset[c as int] := true;
          }
          j := j + 1;
        } else if c == '\\' {
          j := j + 1;
          if j < |p| {
            j := SetCharOrRange(p, j, charset);
          } else {
            charset['\\' as int] := true;
          }
          found := true;
        } else {
          j := SetCharOrRange(p, j, charset);
          found := true;
        }
      case RightBr =>
        if c == '[' {
          state := RightBrLeftBr;
          charset[c as int] := true;
          j := j + 1;
        } else if c == ']' {
          return true, j;
        } else if IsPrint(c) {
          charset[c as int] := true;
          j := j + 1;
          state := Default;
        } else {
          return false, j;
        }
      case RightBrLeftBr =>
        if c == ']' {
          return true, j;
        }
        state := Default;
        charset[c as int] := true;
        j := j + 1;
    }
  }

  /** The membership test of the matcher, flag by flag. */
  method HasFlag(charset: array<bool>, c: char) returns (found: bool)
    requires charset.Length == CHSET_SIZE && c as int < 256
    ensures found == InSet(charset[..], c)
  {
    found := false;
    if charset[c as int] {
      found := true;
    } else if charset[ALNUM] {
      found := IsAlnum(c);
    } else if charset[ALPHA] {
      found := IsAlpha(c);
    } else if charset[DIGIT] {
      found := IsDigit(c);
    } else if charset[XDIGIT] {
      found := IsXdigit(c);
    } else if charset[PRINT] {
      found := IsPrint(c);
    } else if charset[SPACE] {
      found := IsSpace(c);
    } else if charset[UPPER] {
      found := IsUpper(c);
    } else if charset[LOWER] {
      found := IsLower(c);
    } else if charset[BLANK] {
      found := IsBlank(c);
    } else if charset[GRAPH] {
      found := IsGraph(c);
    }
    if charset[NEGATE] {
      found := !found;
    }
  }

  // ---------- star groups ----------

  /** What is left to match after a star: any bytes, then the items from `i` on. */
  ghost predicate StarMatches(items: seq<Item>, s: string)
  {
    exists k :: 0 <= k <= |s| && Matches(items, s[k..])
  }

  lemma DropDrop(s: string, a: nat, b: nat)
    requires a + b <= |s|
    ensures s[a..][b..] == s[a + b..]
  {
  }

  /** A second star adds nothing. */
  lemma StarStar(items: seq<Item>, s: string)
    requires items != [] && items[0].Star?
    ensures StarMatches(items, s) <==> StarMatches(items[1..], s)
  {
    if StarMatches(items, s) {
      var k :| 0 <= k <= |s| && Matches(items, s[k..]);
      var m :| 0 <= m <= |s[k..]| && Matches(items[1..], s[k..][m..]);
      DropDrop(s, k, m);
      assert Matches(items[1..], s[k + m..]);
    }
    if StarMatches(items[1..], s) {
      assert s[0..] == s;
      assert Matches(items, s[0..]);
    }
  }

  /** A question mark after a star can be taken first. */
  lemma StarAny(items: seq<Item>, s: string)
    requires items != [] && items[0].Any?
    ensures StarMatches(items, s) <==> s != "" && StarMatches(items[1..], s[1..])
  {
    if StarMatches(items, s) {
      var k :| 0 <= k <= |s| && Matches(items, s[k..]);
      DropDrop(s, k, 1);
      DropDrop(s, 1, k);
      assert Matches(items[1..], s[1..][k..]);
    }
    if s != "" && StarMatches(items[1..], s[1..]) {
      var k :| 0 <= k <= |s[1..]| && Matches(items[1..], s[1..][k..]);
      DropDrop(s, k, 1);
      DropDrop(s, 1, k);
      assert Matches(items, s[k..]);
    }
  }

  lemma StarEnd(s: string)
    ensures StarMatches([], s)
  {
    assert Matches([], s[|s|..]);
  }

  datatype Regrouped = MatchesAll | MatchesNone | Suffix

  /** The inner loop at a star: skips the rest of its group, taking one byte for each question mark. */
  method Regroup(p: Text, i0: nat, s: Text, j0: nat) returns (r: Regrouped, i: nat, j: nat)
    requires i0 <= |p| && j0 <= |s|
    ensures i0 <= i <= |p| && j0 <= j <= |s|
    ensures r.MatchesAll? ==> StarMatches(Items(p, i0), s[j0..]) && Groups(AfterGroup(Items(p, i0))) == 0
    ensures r.MatchesNone? ==> !StarMatches(Items(p, i0), s[j0..])
    ensures r.Suffix? ==> i < |p| && p[i] != '*' && p[i] != '?'
                          && (StarMatches(Items(p, i0), s[j0..]) <==> StarMatches(Items(p, i), s[j..]))
                          && Groups(AfterGroup(Items(p, i0))) == Groups(Items(p, i))
  {
    hide StarMatches, Matches, Groups, SetAt;
    i, j := i0, j0;
    while true
      invariant i0 <= i <= |p| && j0 <= j <= |s|
      invariant StarMatches(Items(p, i0), s[j0..]) <==> StarMatches(Items(p, i), s[j..])
      invariant AfterGroup(Items(p, i0)) == AfterGroup(Items(p, i))
      decreases |p| - i
    {
      if i == |p| {
        StarEnd(s[j..]);
        NoGroups();
        return MatchesAll, i, j;
      }
      if p[i] == '?' {
        StarAny(Items(p, i), s[j..]);
        if j == |s| {
          return MatchesNone, i, j;
        }
        j := j + 1;
      } else if p[i] == '*' {
        StarStar(Items(p, i), s[j..]);
      } else {
        return Suffix, i, j;
      }
      i := i + 1;
    }
  }

  lemma NoGroups()
    ensures Groups([]) == 0
  {
  }

  // ---------- the matcher ----------

  /** The pattern from `i` on matches the string from `j` on, with at most `k` star groups. */
  ghost predicate MatchesWithin(p: Text, i: nat, s: Text, j: nat, k: nat)
    requires i <= |p| && j <= |s|
  {
    Matches(Items(p, i), s[j..]) && Groups(Items(p, i)) <= k
  }

  lemma StarStep(p: Text, i: nat, s: Text, j: nat, k: nat)
    requires i < |p| && j <= |s| && p[i] == '*'
    ensures MatchesWithin(p, i, s, j, k) <==>
            StarMatches(Items(p, i + 1), s[j..]) && 1 + Groups(AfterGroup(Items(p, i + 1))) <= k
  {
  }

  /** An item other than a star takes one byte. */
  lemma ItemStep(p: Text, i: nat, s: Text, j: nat, k: nat)
    requires i < |p| && j <= |s| && p[i] != '*'
    ensures MatchesWithin(p, i, s, j, k) <==>
            j < |s| && Fits(ItemAt(p, i).0, s[j]) && MatchesWithin(p, ItemAt(p, i).1, s, j + 1, k)
  {
    hide SetAt, InSet;
    if j < |s| {
      DropDrop(s, j, 1);
    }
  }

  lemma AnyStep(p: Text, i: nat, s: Text, j: nat, k: nat)
    requires i < |p| && j <= |s| && p[i] == '?'
    ensures MatchesWithin(p, i, s, j, k) <==> j < |s| && MatchesWithin(p, i + 1, s, j + 1, k)
  {
    hide MatchesWithin, SetAt;
    ItemStep(p, i, s, j, k);
  }

  /** A byte, or the one after a backslash, stands for itself. */
  lemma ByteStep(p: Text, i: nat, s: Text, j: nat, k: nat)
    requires i < |p| && j <= |s| && p[i] != '*' && p[i] != '?' && p[i] != '['
    ensures var b := if p[i] == '\\' && i + 1 < |p| then i + 1 else i;
            MatchesWithin(p, i, s, j, k) <==> At(s, j) == p[b] && MatchesWithin(p, b + 1, s, j + 1, k)
  {
    hide MatchesWithin, SetAt;
    ItemStep(p, i, s, j, k);
  }

  lemma SetStep(p: Text, i: nat, s: Text, j: nat, k: nat)
    requires i < |p| && j <= |s| && p[i] == '['
    ensures var r := SetAt(p, i + 1);
            MatchesWithin(p, i, s, j, k) <==>
            r.Some? && j < |s| && InSet(r.value.1, s[j]) && MatchesWithin(p, r.value.0 + 1, s, j + 1, k)
  {
    hide MatchesWithin, SetAt, InSet;
    ItemStep(p, i, s, j, k);
  }

  lemma EndStep(p: Text, s: Text, j: nat, k: nat)
    requires j <= |s|
    ensures MatchesWithin(p, |p|, s, j, k) <==> j == |s|
  {
  }

  lemma SuffixNeedsByte(p: Text, i: nat)
    requires i < |p| && p[i] != '*'
    ensures !Matches(Items(p, i), "")
  {
    hide SetAt;
  }

  lemma StarMatchesFrom(items: seq<Item>, s: string, j: nat)
    requires j <= |s|
    ensures StarMatches(items, s[j..]) <==> exists x :: j <= x <= |s| && Matches(items, s[x..])
  {
    hide Matches;
    if StarMatches(items, s[j..]) {
      var m :| 0 <= m <= |s[j..]| && Matches(items, s[j..][m..]);
      DropDrop(s, j, m);
      assert Matches(items, s[j + m..]);
    }
    forall x | j <= x <= |s| && Matches(items, s[x..]) ensures StarMatches(items, s[j..]) {
      DropDrop(s, j, x - j);
      assert Matches(items, s[j..][x - j..]);
    }
  }

  /** After a star group, the rest of the pattern matches from some byte on, and never from the end. */
  lemma SuffixSomewhere(p: Text, i: nat, s: Text, j: nat, k: nat)
    requires i < |p| && j <= |s| && p[i] != '*' && p[i] != '?'
    ensures StarMatches(Items(p, i), s[j..]) && Groups(Items(p, i)) <= k <==>
            exists x :: j <= x < |s| && MatchesWithin(p, i, s, x, k)
  {
    hide Matches, StarMatches, Groups, Items;
    SuffixNeedsByte(p, i);
    StarMatchesFrom(Items(p, i), s, j);
    assert s[|s|..] == "";
    if StarMatches(Items(p, i), s[j..]) && Groups(Items(p, i)) <= k {
      var x :| j <= x <= |s| && Matches(Items(p, i), s[x..]);
      assert MatchesWithin(p, i, s, x, k);
    }
  }

  /** `loop`: reports a match exactly when the pattern matches the whole string and has at most `maxstars`
      star groups. */
  method Loop(p: Text, i0: nat, s: Text, j0: nat, maxstars: nat) returns (match': bool)
    requires i0 <= |p| && j0 <= |s|
    ensures match' == MatchesWithin(p, i0, s, j0, maxstars)
    decreases maxstars, 0
  {
    hide MatchesWithin, StarMatches, SetAt, InSet;
    var i: nat, j: nat := i0, j0;
    var charset := new bool[CHSET_SIZE];
    while true
      invariant i <= |p| && j <= |s|
      invariant MatchesWithin(p, i, s, j, maxstars) <==> MatchesWithin(p, i0, s, j0, maxstars)
      decreases |p| - i
    {
      if i == |p| {
        EndStep(p, s, j, maxstars);
        return j == |s|;
      }
      if p[i] == '*' {
        StarStep(p, i, s, j, maxstars);
        if maxstars == 0 {
          return false;
        }
        var r, i', j' := Regroup(p, i + 1, s, j);
        if !r.Suffix? {
          return r.MatchesAll?;
        }
        var left: nat := maxstars - 1;
        match' := SomeSuffix(p, i', s, j', left);
        return;
      }
      if p[i] == '?' {
        AnyStep(p, i, s, j, maxstars);
        if j == |s| {
          return false;
        }
        i, j := i + 1, j + 1;
      } else if p[i] == '\\' {
        ByteStep(p, i, s, j, maxstars);
        var k := if i + 1 < |p| then i + 1 else i;
        if At(s, j) != p[k] {
          return false;
        }
        i, j := k + 1, j + 1;
      } else if p[i] == '[' {
        SetStep(p, i, s, j, maxstars);
        var ok, close := SetCharset(p, i + 1, charset);
        if !ok || j == |s| {
          return false;
        }
        var found := HasFlag(charset, s[j]);
        if !found {
          return false;
        }
        i, j := close + 1, j + 1;
      } else {
        ByteStep(p, i, s, j, maxstars);
        if p[i] != At(s, j) {
          return false;
        }
        i, j := i + 1, j + 1;
      }
    }
  }

  /** The loop after a star group: skips bytes until the rest of the pattern matches. */
  method SomeSuffix(p: Text, i: nat, s: Text, j: nat, maxstars: nat) returns (match': bool)
    requires i < |p| && j <= |s| && p[i] != '*' && p[i] != '?'
    ensures match' <==> StarMatches(Items(p, i), s[j..]) && Groups(Items(p, i)) <= maxstars
    decreases maxstars, 1
  {
    hide MatchesWithin, StarMatches, Groups, Items;
    SuffixSomewhere(p, i, s, j, maxstars);
    var x := j;
    while x < |s|
      invariant j <= x <= |s|
      invariant forall y :: j <= y < x ==> !MatchesWithin(p, i, s, y, maxstars)
    {
      var m := Loop(p, i, s, x, maxstars);
      if m {
        return true;
      }
      x := x + 1;
    }
    return false;
  }

  datatype Answer = Match | NoMatch | Fail

  /** `Curl_fnmatch`: exact for patterns with at most two star groups, and no match beyond. */
  method CurlFnmatch(pattern: Option<Text>, s: Option<Text>) returns (answer: Answer)
    ensures answer.Fail? <==> pattern.None? || s.None?
    ensures pattern.Some? && s.Some? ==>
              (answer.Match? <==> Matches(Items(pattern.value, 0), s.value) && Groups(Items(pattern.value, 0)) <= 2)
  {
    if pattern.None? || s.None? {
      return Fail;
    }
    hide Matches, Groups;
    assert s.value[0..] == s.value;
    var m := Loop(pattern.value, 0, s.value, 0, 2);
    answer := if m then Match else NoMatch;
  }

  lemma ThreeGroups(p: Text)
    requires |p| == 5 && p[0] == p[2] == p[4] == '*' && p[1] == 'a' && p[3] == 'b'
    ensures Items(p, 0) == [Star, One('a'), Star, One('b'), Star]
  {
    assert Items(p, 4) == [Star] + Items(p, 5);
    assert Items(p, 3) == [One('b')] + Items(p, 4);
    assert Items(p, 2) == [Star] + Items(p, 3);
    assert Items(p, 1) == [One('a')] + Items(p, 2);
  }

  lemma StarThenOne(c: char, items: seq<Item>, s: string)
    requires s != "" && s[0] == c && Matches(items, s[1..])
    ensures Matches([Star, One(c)] + items, s)
    ensures Groups([Star, One(c)] + items) == 1 + Groups(items)
  {
    var t := [Star, One(c)] + items;
    assert t[1..] == [One(c)] + items && t[1..][1..] == items;
    assert s[0..] == s;
    assert Matches(t[1..], s[0..]);
  }

  lemma StarAlone()
    ensures Matches([Star], "") && Groups([Star]) == 1
  {
    var last: seq<Item> := [Star];
    assert last[1..] == [] && ""[0..] == "";
  }

  /** Beyond two star groups the matcher misses matches: `*a*b*` and the string "ab". */
  lemma ThirdGroupIsMissed(p: Text)
    requires |p| == 5 && p[0] == p[2] == p[4] == '*' && p[1] == 'a' && p[3] == 'b'
    ensures Matches(Items(p, 0), "ab") && Groups(Items(p, 0)) == 3 && !MatchesWithin(p, 0, "ab", 0, 2)
  {
    hide Matches, Groups, Items;
    var last: seq<Item> := [Star];
    StarAlone();
    ThreeGroups(p);
    assert "b"[1..] == "" && "ab"[1..] == "b";
    StarThenOne('b', last, "b");
    StarThenOne('a', [Star, One('b')] + last, "ab");
    assert [Star, One('a')] + ([Star, One('b')] + last) == [Star, One('a'), Star, One('b'), Star];
  }
}
