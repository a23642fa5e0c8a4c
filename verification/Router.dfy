/**
 The route compiler and dispatcher: api/router/router.cpp. A pattern becomes the text of a regular expression, and the
 text is given the meaning of ECMA-262, section 22.2 (RegExp objects), for the constructs that the compiler emits.
 */
module Routing {
  import opened Sequences

  // ----- Regular expressions -----

  /** What takes one character: the character itself, or any character but one. */
  datatype Item = Char(c: char) | Except(c: char)

  datatype Quantifier = Once | Many | OneOrMore | AtMostOne

  /** A quantified item, with the group around it when there is one. */
  datatype Atom = Atom(item: Item, quantifier: Quantifier, captured: bool)

  function Literal(c: char): Atom {
    Atom(Char(c), Once, false)
  }

  function Param(): Atom {
    Atom(Except('/'), OneOrMore, true)
  }

  /** The syntax characters of section 22.2.1, which do not stand for themselves. */
  predicate Meta(c: char) {
    c in "^$\\.*+?()[]{}|"
  }

  predicate Quantifies(c: char) {
    c == '*' || c == '+' || c == '?'
  }

  /** A character, the escaped dot, or a negated class with one member; with the text that is left. */
  function ReadItem(s: string): (r: Option<(Item, string)>)
    ensures r.Some? ==> |r.value.1| < |s|
  {
    if s == "" then None
    else if s[0] == '\\' then if |s| >= 2 && s[1] == '.' then Some((Char('.'), s[2..])) else None
    else if s[0] == '[' then
      if |s| >= 4 && s[1] == '^' && s[2] != '\\' && s[2] != ']' && s[3] == ']' then Some((Except(s[2]), s[4..]))
      else None
    else if Meta(s[0]) then None
    else Some((Char(s[0]), s[1..]))
  }

  function ReadQuantifier(s: string): (r: (Quantifier, string))
    ensures |r.1| <= |s|
  {
    if s == "" || !Quantifies(s[0]) then (Once, s)
    else (if s[0] == '*' then Many else if s[0] == '+' then OneOrMore else AtMostOne, s[1..])
  }

  function ReadQuantified(s: string, captured: bool): (r: Option<(Atom, string)>)
    ensures r.Some? ==> |r.value.1| < |s|
  {
    match ReadItem(s)
    case None => None
    case Some((item, rest)) =>
      var (quantifier, left) := ReadQuantifier(rest);
      Some((Atom(item, quantifier, captured), left))
  }

  /** A quantified item, or a group that holds one. */
  function ReadAtom(s: string): (r: Option<(Atom, string)>)
    ensures r.Some? ==> |r.value.1| < |s|
  {
    if s == "" || s[0] != '(' then ReadQuantified(s, false)
    else
      match ReadQuantified(s[1..], true)
      case None => None
      case Some((atom, rest)) => if rest != "" && rest[0] == ')' then Some((atom, rest[1..])) else None
  }

  /** Reads the text between the anchors; None when it uses any other construct. */
  function Parse(s: string): Option<seq<Atom>>
    decreases |s|
  {
    if s == "" then Some([])
    else
      match ReadAtom(s)
      case None => None
      case Some((atom, rest)) => Cons(atom, Parse(rest))
  }

  function Cons(a: Atom, rest: Option<seq<Atom>>): Option<seq<Atom>> {
    match rest
    case None => None
    case Some(atoms) => Some([a] + atoms)
  }

  function ParseAnchored(regex: string): Option<seq<Atom>> {
    if |regex| >= 2 && regex[0] == '^' && regex[|regex| - 1] == '$' then Parse(regex[1..|regex| - 1]) else None
  }

  predicate Takes(item: Item, c: char) {
    match item
    case Char(d) => c == d
    case Except(d) => c != d
  }

  predicate Allows(quantifier: Quantifier, count: nat) {
    match quantifier
    case Once => count == 1
    case Many => true
    case OneOrMore => count >= 1
    case AtMostOne => count <= 1
  }

  /** The atom by itself denotes the word. */
  predicate Word(a: Atom, w: string) {
    Allows(a.quantifier, |w|) && forall c :: c in w ==> Takes(a.item, c)
  }

  /** The atoms can match the whole of `s` with these captures. */
  predicate Matches(atoms: seq<Atom>, s: string, captures: seq<string>)
    decreases |atoms|, 1
  {
    if atoms == [] then s == "" && captures == []
    else exists k :: 0 <= k <= |s| && MatchesAfter(atoms, s, k, captures)
  }

  /** The same when the first atom denotes the first `k` characters; a group captures them. */
  predicate MatchesAfter(atoms: seq<Atom>, s: string, k: nat, captures: seq<string>)
    requires atoms != [] && k <= |s|
    decreases |atoms|, 0
  {
    && Word(atoms[0], s[..k])
    && if atoms[0].captured then
      captures != [] && captures[0] == s[..k] && Matches(atoms[1..], s[k..], captures[1..])
    else
      Matches(atoms[1..], s[k..], captures)
  }

  /** A value that a parameter can take: not empty and without a slash. */
  predicate Argument(s: string) {
    s != "" && '/' !in s
  }

  /** The number of characters at the front that the item takes. */
  function Longest(item: Item, s: string): (k: nat)
    ensures k <= |s| && (forall c :: c in s[..k] ==> Takes(item, c)) && (k < |s| ==> !Takes(item, s[k]))
  {
    if s == "" || !Takes(item, s[0]) then 0
    else
      var k := Longest(item, s[1..]);
      assert s[..k + 1] == [s[0]] + s[1..][..k];
      k + 1
  }

  /** The number of characters that the atom takes at first. */
  function Greedy(a: Atom, s: string): (k: nat)
    ensures k <= |s|
  {
    var k := Longest(a.item, s);
    if k > 1 && (a.quantifier.Once? || a.quantifier.AtMostOne?) then 1 else k
  }

  /** The backtracking matcher of section 22.2.2: an atom takes what it can and then gives back. */
  function Backtrack(atoms: seq<Atom>, s: string): Option<seq<string>>
    decreases |atoms|, |s| + 1
  {
    if atoms == [] then if s == "" then Some([]) else None
    else GiveBack(atoms, s, Greedy(atoms[0], s))
  }

  function GiveBack(atoms: seq<Atom>, s: string, taken: nat): Option<seq<string>>
    requires atoms != [] && taken <= |s|
    decreases |atoms|, taken
  {
    if !Allows(atoms[0].quantifier, taken) then None
    else
      match Backtrack(atoms[1..], s[taken..])
      case Some(captures) => Some((if atoms[0].captured then [s[..taken]] else []) + captures)
      case None => if taken == 0 then None else GiveBack(atoms, s, taken - 1)
  }

  /** The position of the first slash, or the length. */
  function FirstSlash(s: string): (k: nat)
    ensures k <= |s| && '/' !in s[..k] && (k < |s| ==> s[k] == '/')
  {
    if s == "" || s[0] == '/' then 0
    else
      var k := FirstSlash(s[1..]);
      assert s[..k + 1] == [s[0]] + s[1..][..k];
      k + 1
  }

  // ----- The compiler -----

  /** What the compiler writes for a parameter. */
  function Group(): string {
    "([^/]+)"
  }

  /** What the compiler appends for the rest of a pattern. */
  function Emit(pattern: string): string {
    if pattern == "" then ""
    else if pattern[0] == ':' then Group() + Emit(pattern[FirstSlash(pattern)..])
    else (if pattern[0] == '.' then "\\." else [pattern[0]]) + Emit(pattern[1..])
  }

  function Compile(pattern: string): string {
    "^" + Emit(pattern) + "$"
  }

  /** What the pattern is meant to say. */
  function AtomsOf(pattern: string): seq<Atom> {
    if pattern == "" then []
    else if pattern[0] == ':' then [Param()] + AtomsOf(pattern[FirstSlash(pattern)..])
    else [Literal(pattern[0])] + AtomsOf(pattern[1..])
  }

  /** A character that stands for itself, or the dot, which the compiler escapes. */
  predicate Ordinary(c: char) {
    c == '.' || !Meta(c)
  }

  /** No character outside a parameter is special in a regular expression, except '.', which the compiler escapes. */
  predicate Safe(pattern: string) {
    forall a :: a in AtomsOf(pattern) && !a.captured ==> Ordinary(a.item.c)
  }

  // ----- Segment-wise matching -----

  function Split(s: string): (segments: seq<string>)
    ensures segments != []
  {
    if s == "" then [""]
    else
      var rest := Split(s[1..]);
      if s[0] == '/' then [""] + rest else [[s[0]] + rest[0]] + rest[1..]
  }

  function FirstColon(s: string): (k: nat)
    ensures k <= |s| && ':' !in s[..k] && (k < |s| ==> s[k] == ':')
  {
    if s == "" || s[0] == ':' then 0
    else
      var k := FirstColon(s[1..]);
      assert s[..k + 1] == [s[0]] + s[1..][..k];
      k + 1
  }

  /** A segment matches itself; one with a colon matches its text before the colon and at least one character more. */
  function MatchSegment(pattern: string, s: string): Option<seq<string>> {
    var k := FirstColon(pattern);
    if k == |pattern| then if s == pattern then Some([]) else None
    else if k < |s| && s[..k] == pattern[..k] then Some([s[k..]])
    else None
  }

  function Both(first: Option<seq<string>>, rest: Option<seq<string>>): Option<seq<string>> {
    if first.Some? && rest.Some? then Some(first.value + rest.value) else None
  }

  function MatchSegments(patterns: seq<string>, segments: seq<string>): Option<seq<string>> {
    if patterns == [] || segments == [] then if patterns == segments then Some([]) else None
    else Both(MatchSegment(patterns[0], segments[0]), MatchSegments(patterns[1..], segments[1..]))
  }

  function MatchPath(pattern: string, path: string): Option<seq<string>> {
    MatchSegments(Split(pattern), Split(path))
  }

  // ----- The emitted text reads back as the pattern -----

  /** Where the compiler continues after the first character. */
  function Advance(pattern: string): (k: nat)
    requires pattern != ""
    ensures 0 < k <= |pattern|
  {
    if pattern[0] == ':' then FirstSlash(pattern) else 1
  }

  lemma SafeTail(pattern: string)
    requires pattern != ""
    ensures AtomsOf(pattern) == AtomsOf(pattern)[..1] + AtomsOf(pattern[Advance(pattern)..])
    ensures Safe(pattern) <==>
              (pattern[0] == ':' || Ordinary(pattern[0])) && Safe(pattern[Advance(pattern)..])
  {
    var atoms, tail := AtomsOf(pattern), AtomsOf(pattern[Advance(pattern)..]);
    assert atoms == [atoms[0]] + tail;
    assert forall a :: a in tail ==> a in atoms;
    assert atoms[0] in atoms;
  }

  lemma EmitHead(pattern: string)
    requires pattern != ""
    ensures var rest := Emit(pattern[Advance(pattern)..]);
            Emit(pattern) ==
              if pattern[0] == ':' then Group() + rest
              else if pattern[0] == '.' then "\\." + rest
              else [pattern[0]] + rest
  {
  }

  lemma OneStep(pattern: string)
    requires pattern != ""
    ensures Advance(pattern) == if pattern[0] == ':' then FirstSlash(pattern) else 1
  {
  }

  /** The emitted text of a safe pattern never puts a quantifier behind a character. */
  lemma SafeHead(pattern: string)
    requires Safe(pattern)
    ensures Emit(pattern) == "" || !Quantifies(Emit(pattern)[0])
  {
    if pattern != "" {
      EmitHead(pattern);
      SafeTail(pattern);
      assert Group()[0] == '(';
      hide Emit, AtomsOf, Safe, Group;
    }
  }

  lemma ReadPlain(c: char, rest: string)
    requires Ordinary(c)
    requires rest == "" || !Quantifies(rest[0])
    ensures Parse((if c == '.' then "\\." else [c]) + rest) == Cons(Literal(c), Parse(rest))
  {
    hide Parse, Cons;
    var s := (if c == '.' then "\\." else [c]) + rest;
    assert ("\\." + rest)[2..] == rest && ([c] + rest)[1..] == rest;
    assert ReadItem(s) == Some((Char(c), rest));
    assert ReadAtom(s) == Some((Literal(c), rest));
    ParseStep(s, Literal(c), rest);
  }

  lemma ParseStep(s: string, a: Atom, rest: string)
    requires ReadAtom(s) == Some((a, rest))
    ensures Parse(s) == Cons(a, Parse(rest))
  {
    assert s != "";
    hide ReadAtom;
  }

  /** A group of a repeated class of everything but `c`. */
  lemma ReadGroupOf(c: char, q: char, rest: string)
    requires c != '\\' && c != ']' && Quantifies(q)
    ensures Parse("([^" + [c] + "]" + [q] + ")" + rest) ==
              Cons(Atom(Except(c), ReadQuantifier([q]).0, true), Parse(rest))
  {
    hide Parse, Cons;
    var s := "([^" + [c] + "]" + [q] + ")" + rest;
    assert s[1..][4..] == [q] + ")" + rest && ([q] + ")" + rest)[1..] == ")" + rest;
    assert (")" + rest)[1..] == rest;
    assert ReadItem(s[1..]) == Some((Except(c), [q] + ")" + rest));
    ParseStep(s, Atom(Except(c), ReadQuantifier([q]).0, true), rest);
  }

  lemma ReadGroup(rest: string)
    ensures Parse(Group() + rest) == Cons(Param(), Parse(rest))
  {
    ReadGroupOf('/', '+', rest);
    assert "([^" + "/" + "]" + "+" + ")" == Group();
  }

  lemma {:induction false} EmitReadsBack(pattern: string)
    requires Safe(pattern)
    ensures Parse(Emit(pattern)) == Some(AtomsOf(pattern))
    decreases |pattern|
  {
    if pattern != "" {
      hide Safe, Group, Parse;
      var tail := pattern[Advance(pattern)..];
      SafeTail(pattern);
      EmitReadsBack(tail);
      SafeHead(tail);
      EmitHead(pattern);
      if pattern[0] == ':' {
        ReadGroup(Emit(tail));
      } else {
        ReadPlain(pattern[0], Emit(tail));
      }
    } else {
      assert Parse("") == Some([]);
    }
  }

  // ----- The language is segment-wise matching -----

  lemma SegmentStep(c: char, pattern: string, s: string)
    requires c != ':'
    ensures MatchSegment([c] + pattern, s) == if s != "" && s[0] == c then MatchSegment(pattern, s[1..]) else None
  {
    var all, k := [c] + pattern, FirstColon(pattern);
    assert all[1..] == pattern;
    assert FirstColon(all) == k + 1;
    assert all[..k + 1] == [c] + pattern[..k];
    if s != "" {
      var tail := s[1..];
      assert s == [s[0]] + tail;
      assert s == all <==> s[0] == c && tail == pattern;
      if k < |tail| {
        assert s[..k + 1] == [s[0]] + tail[..k];
        assert s[..k + 1] == all[..k + 1] <==> s[0] == c && tail[..k] == pattern[..k] by {
          Prepend(s[0], tail[..k], c, pattern[..k]);
        }
        assert s[k + 1..] == tail[k..];
      }
    }
  }

  lemma Prepend(a: char, x: string, b: char, y: string)
    ensures [a] + x == [b] + y <==> a == b && x == y
  {
    assert ([a] + x)[0] == a && ([b] + y)[0] == b && ([a] + x)[1..] == x && ([b] + y)[1..] == y;
  }

  lemma SplitAtSlash(s: string)
    ensures var k := FirstSlash(s); Split(s)[0] == s[..k] && Split(s[k..]) == [""] + Split(s)[1..]
  {
    if s != "" && s[0] != '/' {
      var k := FirstSlash(s[1..]);
      SplitAtSlash(s[1..]);
      assert s[1..][k..] == s[k + 1..];
      assert s[..k + 1] == [s[0]] + s[1..][..k];
    } else {
      assert s[0..] == s;
      assert s != "" ==> Split(s)[1..] == Split(s[1..]);
    }
  }

  lemma MatchCons(p: string, ps: seq<string>, s: string, ss: seq<string>)
    ensures MatchSegments([p] + ps, [s] + ss) == Both(MatchSegment(p, s), MatchSegments(ps, ss))
    ensures MatchSegment("", s) == if s == "" then Some([]) else None
    ensures Both(Some([]), MatchSegments(ps, ss)) == MatchSegments(ps, ss)
  {
    assert ([p] + ps)[1..] == ps && ([s] + ss)[1..] == ss;
    var rest := MatchSegments(ps, ss);
    assert rest.Some? ==> [] + rest.value == rest.value;
  }

  /** A slash of the pattern takes a slash off the path. */
  lemma SlashStep(pattern: string, path: string)
    requires pattern != "" && pattern[0] == '/'
    ensures MatchPath(pattern, path) ==
              if path != "" && path[0] == '/' then MatchPath(pattern[1..], path[1..]) else None
  {
    var ps, ss := Split(pattern[1..]), Split(path);
    assert ss == [ss[0]] + ss[1..];
    assert path == "" ==> ss[1..] == [];
    assert path != "" && path[0] == '/' ==> ss[1..] == Split(path[1..]);
    MatchCons("", ps, ss[0], ss[1..]);
  }

  /** Any other literal character of the pattern takes that character off the path. */
  lemma LetterStep(pattern: string, path: string)
    requires pattern != "" && pattern[0] != ':' && pattern[0] != '/'
    ensures MatchPath(pattern, path) ==
              if path != "" && path[0] == pattern[0] then MatchPath(pattern[1..], path[1..]) else None
  {
    var ps, ss := Split(pattern[1..]), Split(path);
    assert ss == [ss[0]] + ss[1..] && ps == [ps[0]] + ps[1..];
    MatchCons([pattern[0]] + ps[0], ps[1..], ss[0], ss[1..]);
    SegmentStep(pattern[0], ps[0], ss[0]);
    hide MatchSegment, MatchSegments;
    if path != "" && path[0] == pattern[0] {
      var rest := Split(path[1..]);
      assert ss[0][1..] == rest[0] && ss[1..] == rest[1..];
      assert rest == [rest[0]] + rest[1..];
      MatchCons(ps[0], ps[1..], rest[0], rest[1..]);
    }
  }

  lemma LiteralStep(pattern: string, path: string)
    requires pattern != "" && pattern[0] != ':'
    ensures MatchPath(pattern, path) ==
              if path != "" && path[0] == pattern[0] then MatchPath(pattern[1..], path[1..]) else None
  {
    hide MatchPath;
    if pattern[0] == '/' {
      SlashStep(pattern, path);
    } else {
      LetterStep(pattern, path);
    }
  }

  /** A parameter takes the rest of the segment, which must not be empty. */
  lemma ParamStep(pattern: string, path: string)
    requires pattern != "" && pattern[0] == ':'
    ensures var j, k := FirstSlash(pattern), FirstSlash(path);
            MatchPath(pattern, path) ==
              if k == 0 then None else Both(Some([path[..k]]), MatchPath(pattern[j..], path[k..]))
  {
    var j, k := FirstSlash(pattern), FirstSlash(path);
    var ps, ss := Split(pattern), Split(path);
    SplitAtSlash(pattern);
    SplitAtSlash(path);
    SegmentOfParam(pattern[..j], path[..k]);
    assert ss == [ss[0]] + ss[1..] && ps == [ps[0]] + ps[1..];
    hide MatchSegments, MatchSegment, Split, FirstSlash;
    MatchCons(ps[0], ps[1..], ss[0], ss[1..]);
    MatchCons("", ps[1..], "", ss[1..]);
  }

  lemma SegmentOfParam(pattern: string, s: string)
    requires pattern != "" && pattern[0] == ':'
    ensures MatchSegment(pattern, s) == if s == "" then None else Some([s])
  {
    assert s[0..] == s;
  }

  /** After a parameter the pattern ends or goes on with a slash, so what follows decides where the parameter ends. */
  lemma ParamEnds(pattern: string, path: string, taken: nat)
    requires pattern != "" && pattern[0] == ':' && taken < FirstSlash(path)
    ensures MatchPath(pattern[FirstSlash(pattern)..], path[taken..]) == None
  {
    var tail, k := pattern[FirstSlash(pattern)..], FirstSlash(path);
    assert path[taken] == path[..k][taken] && path[taken] != '/';
    if tail != "" {
      LiteralStep(tail, path[taken..]);
    } else {
      EmptyPattern(path[taken..]);
    }
  }

  lemma EmptyPattern(path: string)
    ensures MatchPath("", path) == if path == "" then Some([]) else None
  {
    var ss := Split(path);
    assert ss == [ss[0]] + ss[1..] && [""] + [] == Split("");
    assert path == "" ==> ss[1..] == [];
    assert path != "" && path[0] == '/' ==> ss[1..] == Split(path[1..]);
    MatchCons("", [], ss[0], ss[1..]);
  }

  lemma SlashWithin(prefix: string, path: string)
    requires prefix <= path
    ensures |prefix| > FirstSlash(path) ==> '/' in prefix
  {
    if |prefix| > FirstSlash(path) {
      assert prefix[FirstSlash(path)] == '/';
    }
  }

  /** A literal denotes its character. */
  lemma MatchesLiteral(c: char, atoms: seq<Atom>, s: string, captures: seq<string>)
    requires atoms != [] && atoms[0] == Literal(c)
    ensures Matches(atoms, s, captures) <==> s != "" && s[0] == c && Matches(atoms[1..], s[1..], captures)
  {
    if s != "" {
      assert s[..1] == [s[0]];
      assert Word(atoms[0], [s[0]]) <==> s[0] == c by {
        assert s[0] in [s[0]];
      }
      assert MatchesAfter(atoms, s, 1, captures) <==> s[0] == c && Matches(atoms[1..], s[1..], captures);
    }
  }

  /** The group of the compiler denotes exactly the arguments. */
  lemma GroupDenotes(w: string)
    ensures Word(Param(), w) <==> Argument(w)
  {
  }

  lemma MatchesParam(atoms: seq<Atom>, s: string, captures: seq<string>)
    requires atoms != [] && atoms[0] == Param()
    ensures Matches(atoms, s, captures) <==>
              && captures != [] && Argument(captures[0]) && captures[0] <= s
              && Matches(atoms[1..], s[|captures[0]|..], captures[1..])
  {
    if captures != [] && captures[0] <= s {
      assert s[..|captures[0]|] == captures[0];
      assert MatchesAfter(atoms, s, |captures[0]|, captures) <==>
               Argument(captures[0]) && Matches(atoms[1..], s[|captures[0]|..], captures[1..]);
    }
  }

  /** A group that takes anything but the rest of the segment leaves a remainder that cannot match. */
  lemma ParamTakesSegment(pattern: string, path: string, captures: seq<string>)
    requires pattern != "" && pattern[0] == ':'
    requires captures != [] && Argument(captures[0]) && captures[0] <= path
    ensures MatchPath(pattern, path) == Some(captures) <==>
              MatchPath(pattern[FirstSlash(pattern)..], path[|captures[0]|..]) == Some(captures[1..])
  {
    hide MatchPath;
    var k, n := FirstSlash(path), |captures[0]|;
    assert path[..n] == captures[0];
    assert captures == [captures[0]] + captures[1..];
    ParamStep(pattern, path);
    SlashWithin(captures[0], path);
    if n < k {
      ParamEnds(pattern, path, n);
    }
  }

  /**
   For every pattern and path, the atoms of the pattern can match the path in at most one way: exactly when the
   path matches segment by segment, with the captures read off the segments.
   */
  lemma {:induction false} LanguageIsSegments(pattern: string, path: string, captures: seq<string>)
    ensures Matches(AtomsOf(pattern), path, captures) <==> MatchPath(pattern, path) == Some(captures)
    decreases |pattern|
  {
    hide MatchPath;
    var atoms := AtomsOf(pattern);
    if pattern == "" {
      EmptyPattern(path);
    } else if pattern[0] == ':' {
      assert atoms[1..] == AtomsOf(pattern[FirstSlash(pattern)..]);
      MatchesParam(atoms, path, captures);
      hide Matches;
      if captures != [] && Argument(captures[0]) && captures[0] <= path {
        LanguageIsSegments(pattern[FirstSlash(pattern)..], path[|captures[0]|..], captures[1..]);
        ParamTakesSegment(pattern, path, captures);
      } else {
        ParamCaptures(pattern, path);
      }
    } else {
      assert atoms[1..] == AtomsOf(pattern[1..]);
      MatchesLiteral(pattern[0], atoms, path, captures);
      hide Matches;
      LiteralStep(pattern, path);
      if path != "" {
        LanguageIsSegments(pattern[1..], path[1..], captures);
      }
    }
  }

  lemma ParamCaptures(pattern: string, path: string)
    requires pattern != "" && pattern[0] == ':'
    ensures var r := MatchPath(pattern, path);
            r.Some? ==> r.value != [] && Argument(r.value[0]) && r.value[0] <= path
  {
    hide MatchPath;
    ParamStep(pattern, path);
  }

  // ----- The backtracking matcher finds the only match -----

  lemma {:induction false} BacktrackSound(atoms: seq<Atom>, s: string)
    ensures var r := Backtrack(atoms, s); r.Some? ==> Matches(atoms, s, r.value)
    decreases |atoms|, |s| + 1
  {
    if atoms != [] {
      GiveBackSound(atoms, s, Greedy(atoms[0], s));
    }
  }

  lemma {:induction false} GiveBackSound(atoms: seq<Atom>, s: string, taken: nat)
    requires atoms != [] && taken <= Longest(atoms[0].item, s)
    ensures var r := GiveBack(atoms, s, taken); r.Some? ==> Matches(atoms, s, r.value)
    decreases |atoms|, taken
  {
    var rest := Backtrack(atoms[1..], s[taken..]);
    if Allows(atoms[0].quantifier, taken) && rest.Some? {
      BacktrackSound(atoms[1..], s[taken..]);
      assert s[..taken] == s[..Longest(atoms[0].item, s)][..taken];
      assert ([s[..taken]] + rest.value)[1..] == rest.value && [] + rest.value == rest.value;
      assert MatchesAfter(atoms, s, taken, GiveBack(atoms, s, taken).value);
    } else if taken > 0 {
      GiveBackSound(atoms, s, taken - 1);
    }
  }

  lemma {:induction false} BacktrackComplete(atoms: seq<Atom>, s: string, captures: seq<string>)
    requires Matches(atoms, s, captures)
    ensures Backtrack(atoms, s).Some?
    decreases |atoms|, |s| + 1
  {
    if atoms != [] {
      var k: nat :| k <= |s| && MatchesAfter(atoms, s, k, captures);
      WordWithin(atoms[0], s, k);
      GiveBackComplete(atoms, s, Greedy(atoms[0], s), k, captures);
    }
  }

  /** What an atom takes at first is the longest of its words. */
  lemma WordWithin(a: Atom, s: string, k: nat)
    requires k <= |s| && Word(a, s[..k])
    ensures k <= Greedy(a, s) && Word(a, s[..Greedy(a, s)])
  {
    var n, longest := Greedy(a, s), Longest(a.item, s);
    assert s[..n] == s[..longest][..n];
  }

  lemma {:induction false} GiveBackComplete(
    atoms: seq<Atom>, s: string, taken: nat, k: nat, captures: seq<string>)
    requires atoms != [] && k <= taken <= |s|
    requires MatchesAfter(atoms, s, k, captures) && Allows(atoms[0].quantifier, taken)
    ensures GiveBack(atoms, s, taken).Some?
    decreases |atoms|, taken
  {
    if taken == k {
      BacktrackComplete(atoms[1..], s[k..], if atoms[0].captured then captures[1..] else captures);
    } else {
      GiveBackComplete(atoms, s, taken - 1, k, captures);
    }
  }

  /** What a search by the compiled expression returns is the segment-wise match of the pattern. */
  lemma SearchIsSegments(pattern: string, path: string)
    ensures Backtrack(AtomsOf(pattern), path) == MatchPath(pattern, path)
  {
    var atoms, found, expected := AtomsOf(pattern), Backtrack(AtomsOf(pattern), path), MatchPath(pattern, path);
    BacktrackSound(atoms, path);
    if found.Some? {
      LanguageIsSegments(pattern, path, found.value);
    }
    if expected.Some? {
      LanguageIsSegments(pattern, path, expected.value);
      BacktrackComplete(atoms, path, expected.value);
    }
  }

  // ----- Filling a pattern and matching it -----

  predicate Plain(atoms: seq<Atom>) {
    forall i :: 0 <= i < |atoms| ==>
      atoms[i] == Param() || (atoms[i].item.Char? && atoms[i] == Literal(atoms[i].item.c))
  }

  /** A pattern asks for literals and parameters only. */
  lemma {:induction false} AtomsArePlain(pattern: string)
    ensures Plain(AtomsOf(pattern))
    decreases |pattern|
  {
    if pattern != "" {
      AtomsArePlain(pattern[Advance(pattern)..]);
    }
  }

  function Params(atoms: seq<Atom>): nat {
    if atoms == [] then 0 else (if atoms[0].captured then 1 else 0) + Params(atoms[1..])
  }

  predicate Arguments(atoms: seq<Atom>, values: seq<string>) {
    |values| == Params(atoms) && forall i :: 0 <= i < |values| ==> Argument(values[i])
  }

  /** The text of the atoms with the parameters replaced, in order, by the values. */
  function Fill(atoms: seq<Atom>, values: seq<string>): string
    requires Plain(atoms) && |values| == Params(atoms)
  {
    if atoms == [] then ""
    else if atoms[0].captured then values[0] + Fill(atoms[1..], values[1..])
    else [atoms[0].item.c] + Fill(atoms[1..], values)
  }

  /** A match is the same thing as a filling: the captures are the arguments, and the path is the filled pattern. */
  lemma {:induction false} MatchIsFilling(atoms: seq<Atom>, s: string, values: seq<string>)
    requires Plain(atoms)
    ensures Matches(atoms, s, values) <==> Arguments(atoms, values) && s == Fill(atoms, values)
  {
    if atoms != [] {
      hide Matches;
      if !atoms[0].captured {
        MatchesLiteral(atoms[0].item.c, atoms, s, values);
        if s != "" {
          MatchIsFilling(atoms[1..], s[1..], values);
          assert s == [s[0]] + s[1..];
        }
      } else {
        MatchesParam(atoms, s, values);
        if values != [] {
          assert values == [values[0]] + values[1..];
          if values[0] <= s {
            MatchIsFilling(atoms[1..], s[|values[0]|..], values[1..]);
            assert s == values[0] + s[|values[0]|..];
          }
        }
      }
    }
  }

  lemma {:induction false} FillKeepsLiterals(atoms: seq<Atom>, values: seq<string>, a: Atom)
    requires Plain(atoms) && |values| == Params(atoms) && a in atoms && !a.captured
    ensures a.item.c in Fill(atoms, values)
  {
    if atoms[0] != a {
      FillKeepsLiterals(atoms[1..], if atoms[0].captured then values[1..] else values, a);
    }
  }

  /**
   Round trip, both ways: filling a pattern with arguments gives a path that is matched with exactly these captures,
   and a path that is matched refills to itself.
   */
  lemma RoundTrip(pattern: string, path: string, values: seq<string>)
    ensures Plain(AtomsOf(pattern))
    ensures Backtrack(AtomsOf(pattern), path) == Some(values) <==>
              Arguments(AtomsOf(pattern), values) && path == Fill(AtomsOf(pattern), values)
  {
    AtomsArePlain(pattern);
    SearchIsSegments(pattern, path);
    LanguageIsSegments(pattern, path, values);
    MatchIsFilling(AtomsOf(pattern), path, values);
  }

  lemma {:induction false} MatchedSegmentCount(ps: seq<string>, ss: seq<string>)
    ensures MatchSegments(ps, ss).Some? ==> |ps| == |ss|
  {
    if ps != [] && ss != [] {
      MatchedSegmentCount(ps[1..], ss[1..]);
    }
  }

  /** Patterns with different numbers of slashes never match one path. */
  lemma DifferentSlashesNeverBoth(first: string, second: string, path: string)
    requires |Split(first)| != |Split(second)|
    ensures Backtrack(AtomsOf(first), path) == None || Backtrack(AtomsOf(second), path) == None
  {
    SearchIsSegments(first, path);
    SearchIsSegments(second, path);
    MatchedSegmentCount(Split(first), Split(path));
    MatchedSegmentCount(Split(second), Split(path));
  }

  // ----- The compiled text, and exactly when it means the pattern -----

  /** The text is within the constructs above, and can match the whole of `s` with these captures. */
  predicate RegexMatches(text: string, s: string, captures: seq<string>) {
    var parsed := ParseAnchored(text);
    parsed.Some? && Matches(parsed.value, s, captures)
  }

  lemma Unanchored(pattern: string)
    ensures ParseAnchored(Compile(pattern)) == Parse(Emit(pattern))
  {
    var text := Compile(pattern);
    assert text[1..|text| - 1] == Emit(pattern);
  }

  /** For every safe pattern, the compiled text matches exactly the paths that match segment by segment. */
  lemma CompiledLanguage(pattern: string, path: string, captures: seq<string>)
    requires Safe(pattern)
    ensures RegexMatches(Compile(pattern), path, captures) <==> MatchPath(pattern, path) == Some(captures)
  {
    Unanchored(pattern);
    EmitReadsBack(pattern);
    LanguageIsSegments(pattern, path, captures);
  }

  predicate AllOrdinary(atoms: seq<Atom>) {
    forall i :: 0 <= i < |atoms| && atoms[i].item.Char? ==> Ordinary(atoms[i].item.c)
  }

  lemma ConsOrdinary(a: Atom, rest: Option<seq<Atom>>)
    requires rest.Some? ==> AllOrdinary(rest.value)
    requires a.item.Char? ==> Ordinary(a.item.c)
    ensures Cons(a, rest).Some? ==> AllOrdinary(Cons(a, rest).value)
  {
  }

  /** Whatever text is read, the characters in its atoms are ordinary. */
  lemma {:induction false} ReadsOrdinary(s: string)
    ensures Parse(s).Some? ==> AllOrdinary(Parse(s).value)
    decreases |s|
  {
    var r := ReadAtom(s);
    if s != "" && r.Some? {
      assert r.value.0.item.Char? ==> Ordinary(r.value.0.item.c);
      hide AllOrdinary, Ordinary, ReadAtom;
      ReadsOrdinary(r.value.1);
      ConsOrdinary(r.value.0, Parse(r.value.1));
    }
  }

  /** The emitted text reads back as what the pattern says exactly when the pattern is safe. */
  lemma ReadsBackIffSafe(pattern: string)
    ensures Parse(Emit(pattern)) == Some(AtomsOf(pattern)) <==> Safe(pattern)
  {
    if Safe(pattern) {
      EmitReadsBack(pattern);
    } else {
      ReadsOrdinary(Emit(pattern));
      AtomsArePlain(pattern);
      hide Parse, Emit, AtomsOf;
      var a :| a in AtomsOf(pattern) && !a.captured && !Ordinary(a.item.c);
    }
  }

  predicate OrdinaryPath(path: string) {
    forall c :: c in path ==> Ordinary(c)
  }

  /** An unsafe pattern says that its special character is in every path it matches. */
  lemma UnsafeNeedsSpecial(pattern: string, path: string)
    requires !Safe(pattern) && MatchPath(pattern, path).Some?
    ensures !OrdinaryPath(path)
  {
    var atoms, captures := AtomsOf(pattern), MatchPath(pattern, path).value;
    LanguageIsSegments(pattern, path, captures);
    AtomsArePlain(pattern);
    MatchIsFilling(atoms, path, captures);
    var a :| a in atoms && !a.captured && !Ordinary(a.item.c);
    FillKeepsLiterals(atoms, captures, a);
    assert a.item.c in path;
  }

  /** Atoms of ordinary characters match a path of ordinary characters. */
  lemma {:induction false} SomeOrdinaryMatch(atoms: seq<Atom>) returns (s: string, captures: seq<string>)
    requires AllOrdinary(atoms)
    ensures Matches(atoms, s, captures) && OrdinaryPath(s)
  {
    if atoms == [] {
      s, captures := "", [];
    } else {
      var t, rest := SomeOrdinaryMatch(atoms[1..]);
      var c := match atoms[0].item case Char(d) => d case Except(d) => if d == 'x' then 'y' else 'x';
      s, captures := [c] + t, (if atoms[0].captured then [[c]] else []) + rest;
      assert s[..1] == [c] && s[1..] == t && ([[c]] + rest)[1..] == rest && [] + rest == rest;
      assert MatchesAfter(atoms, s, 1, captures);
    }
  }

  /**
   The regular expression library. What it does with texts outside the constructs above is arbitrary: whether it
   accepts them, and what a search returns.
   */
  datatype Library = Library(accepts: string -> bool, search: (string, string) -> Option<seq<string>>)

  predicate Accepted(lib: Library, text: string) {
    ParseAnchored(text).Some? || lib.accepts(text)
  }

  /** regex_match of the whole path, with the captures. */
  function RegexMatch(lib: Library, text: string, path: string): Option<seq<string>> {
    var parsed := ParseAnchored(text);
    if parsed.Some? then Backtrack(parsed.value, path)
    else if lib.accepts(text) then lib.search(text, path)
    else None
  }

  /** The route behaves as its pattern says. */
  ghost predicate Faithful(lib: Library, pattern: string) {
    forall path :: RegexMatch(lib, Compile(pattern), path) == MatchPath(pattern, path)
  }

  /** The route behaves as its pattern says on the paths without special characters. */
  ghost predicate FaithfulOnOrdinary(lib: Library, pattern: string) {
    forall path :: OrdinaryPath(path) ==> RegexMatch(lib, Compile(pattern), path) == MatchPath(pattern, path)
  }

  /** The route answers at least one path without special characters. */
  ghost predicate AnswersOrdinary(lib: Library, pattern: string) {
    exists path :: OrdinaryPath(path) && RegexMatch(lib, Compile(pattern), path).Some?
  }

  /** Routes with safe patterns behave as their patterns say, on every path. */
  lemma SafeIsFaithful(lib: Library, pattern: string)
    requires Safe(pattern)
    ensures Faithful(lib, pattern)
  {
    Unanchored(pattern);
    EmitReadsBack(pattern);
    forall path
      ensures RegexMatch(lib, Compile(pattern), path) == MatchPath(pattern, path)
    {
      SearchIsSegments(pattern, path);
    }
  }

  /**
   With any one library, on the paths without special characters: a route behaves as its pattern says if and only if
   the pattern is safe, or the route answers no such path at all.
   */
  lemma FaithfulIffSafe(lib: Library, pattern: string)
    ensures FaithfulOnOrdinary(lib, pattern) <==> Safe(pattern) || !AnswersOrdinary(lib, pattern)
  {
    hide Safe, OrdinaryPath, RegexMatch, MatchPath, Compile;
    if Safe(pattern) {
      SafeIsFaithful(lib, pattern);
    } else {
      forall path | OrdinaryPath(path)
        ensures MatchPath(pattern, path) == None
      {
        if MatchPath(pattern, path).Some? {
          UnsafeNeedsSpecial(pattern, path);
        }
      }
    }
  }

  /** Every text within the constructs above answers some path without special characters. */
  lemma ReadableAnswersOrdinary(lib: Library, pattern: string)
    requires ParseAnchored(Compile(pattern)).Some?
    ensures AnswersOrdinary(lib, pattern)
  {
    Unanchored(pattern);
    ReadsOrdinary(Emit(pattern));
    var atoms := Parse(Emit(pattern)).value;
    var path, captures := SomeOrdinaryMatch(atoms);
    BacktrackComplete(atoms, path, captures);
    hide Parse, Emit, OrdinaryPath, Backtrack;
    assert OrdinaryPath(path) && RegexMatch(lib, Compile(pattern), path).Some?;
  }

  /** So among those the routes that behave as their patterns say are exactly the ones with safe patterns. */
  lemma ReadableFaithfulIffSafe(lib: Library, pattern: string)
    requires ParseAnchored(Compile(pattern)).Some?
    ensures Faithful(lib, pattern) <==> Safe(pattern)
  {
    hide Safe, RegexMatch, MatchPath, Compile;
    FaithfulIffSafe(lib, pattern);
    ReadableAnswersOrdinary(lib, pattern);
    if Safe(pattern) {
      SafeIsFaithful(lib, pattern);
    }
    assert Faithful(lib, pattern) ==> FaithfulOnOrdinary(lib, pattern);
  }

  /** Every pattern matches some path segment by segment: the one with "x" for each parameter. */
  lemma SomePath(pattern: string) returns (path: string)
    ensures MatchPath(pattern, path).Some?
  {
    var atoms := AtomsOf(pattern);
    AtomsArePlain(pattern);
    var values := seq(Params(atoms), _ => "x");
    path := Fill(atoms, values);
    MatchIsFilling(atoms, path, values);
    LanguageIsSegments(pattern, path, values);
  }

  /** A library that supports the constructs above and nothing else. */
  function Strict(): Library {
    Library(_ => false, (_, _) => None)
  }

  /** For every unsafe pattern there is a library with which the route does not behave as its pattern says. */
  lemma UnsafeIsUnfaithful(pattern: string)
    requires !Safe(pattern)
    ensures !Faithful(Strict(), pattern)
  {
    if ParseAnchored(Compile(pattern)).Some? {
      ReadableFaithfulIffSafe(Strict(), pattern);
    } else {
      var path := SomePath(pattern);
      hide Safe, MatchPath, ParseAnchored, Compile;
      assert RegexMatch(Strict(), Compile(pattern), path) == None;
    }
  }

  /**
   A route behaves as its pattern says, on every path and whatever the library does beyond the constructs above, if
   and only if the pattern is safe. When its text uses only those constructs, this holds with each single library.
   */
  lemma SafeIffFaithful(pattern: string)
    ensures Safe(pattern) <==> forall lib: Library :: Faithful(lib, pattern)
    ensures ParseAnchored(Compile(pattern)).Some? ==>
              forall lib: Library :: Faithful(lib, pattern) <==> Safe(pattern)
  {
    hide Safe, Faithful, ParseAnchored, Compile;
    forall lib: Library
      ensures Safe(pattern) ==> Faithful(lib, pattern)
      ensures ParseAnchored(Compile(pattern)).Some? ==> (Faithful(lib, pattern) <==> Safe(pattern))
    {
      if Safe(pattern) {
        SafeIsFaithful(lib, pattern);
      }
      if ParseAnchored(Compile(pattern)).Some? {
        ReadableFaithfulIffSafe(lib, pattern);
      }
    }
    if !Safe(pattern) {
      UnsafeIsUnfaithful(pattern);
    }
  }

  lemma {:induction false} PlainEmit(word: string)
    requires ':' !in word && '.' !in word
    ensures Emit(word) == word
  {
    if word != "" {
      PlainEmit(word[1..]);
      assert word == [word[0]] + word[1..];
    }
  }

  lemma EmitParam(name: string)
    requires '/' !in name
    ensures Emit(":" + name) == Group()
  {
    var pattern := ":" + name;
    assert forall c :: c in pattern ==> c == ':' || c in name;
    assert FirstSlash(pattern) == |pattern|;
    assert Emit("") == "";
  }

  lemma {:induction false} MatchesOne(a: Atom, s: string, captures: seq<string>)
    ensures Matches([a], s, captures) <==> Word(a, s) && captures == if a.captured then [s] else []
  {
    assert [a][1..] == [] && s[..|s|] == s && s[|s|..] == "";
    forall k: nat | k <= |s|
      ensures MatchesAfter([a], s, k, captures) <==>
                k == |s| && Word(a, s) && captures == if a.captured then [s] else []
    {
      assert s[k..] == "" <==> k == |s|;
      assert captures != [] ==> captures == [captures[0]] + captures[1..];
    }
    assert MatchesAfter([a], s, |s|, captures) <==> Word(a, s) && captures == if a.captured then [s] else [];
  }

  lemma AnchoredOne(middle: string, a: Atom)
    requires Parse(middle) == Cons(a, Parse(""))
    ensures ParseAnchored("^" + middle + "$") == Some([a])
  {
    var text := "^" + middle + "$";
    assert text[1..|text| - 1] == middle;
    assert [a] + [] == [a];
  }

  lemma GroupReads()
    ensures ParseAnchored("^" + Group() + "$") == Some([Param()])
  {
    ReadGroup("");
    assert Group() + "" == Group();
    AnchoredOne(Group(), Param());
  }

  lemma GroupCharacters()
    ensures Group() != "" && Group()[0] == '(' && ':' !in Group() && '.' !in Group()
  {
  }

  /** A pattern that spells out the group is read as a parameter: it matches "x", which is not the pattern's text. */
  lemma UnsafePatternMisread()
    ensures !Safe(Group())
    ensures Compile(Group()) == Compile(":id")
    ensures RegexMatches(Compile(Group()), "x", ["x"]) && MatchPath(Group(), "x") == None
  {
    hide Group, MatchPath, Matches, ParseAnchored, Emit, Safe, AtomsOf;
    var group := Group();
    GroupCharacters();
    PlainEmit(group);
    EmitParam("id");
    assert ":" + "id" == ":id";
    LiteralStep(group, "x");
    GroupReads();
    MatchesOne(Param(), "x", ["x"]);
    assert Meta('(');
    SafeTail(group);
  }

  /** A character followed by '+' is read as a repetition: the route answers "aa" and not the text of its pattern. */
  lemma QuantifierMisread(c: char, lib: Library)
    requires !Meta(c) && c != ':'
    ensures !Safe([c, '+'])
    ensures RegexMatch(lib, Compile([c, '+']), [c, c]) == Some([]) && MatchPath([c, '+'], [c, c]) == None
    ensures RegexMatch(lib, Compile([c, '+']), [c, '+']) == None && MatchPath([c, '+'], [c, '+']) == Some([])
  {
    var pattern := [c, '+'];
    assert pattern[1..] == "+";
    PlainEmit(pattern);
    Unanchored(pattern);
    SafeTail(pattern);
    SafeTail("+");
    ReadRepeat(c, '+');
    hide Safe, Parse, MatchPath, Backtrack;
    PlusPattern(c);
    PlusRegex(c);
  }

  lemma PlusPattern(c: char)
    requires c != ':'
    ensures c != '+' ==> MatchPath([c, '+'], [c, c]) == None
    ensures MatchPath([c, '+'], [c, '+']) == Some([])
  {
    hide MatchPath;
    var pattern := [c, '+'];
    LiteralStep(pattern, [c, c]);
    LiteralStep("+", [c]);
    LiteralStep(pattern, [c, '+']);
    LiteralStep("+", "+");
    EmptyPattern("");
    assert pattern[1..] == "+" && [c, c][1..] == [c] && "+"[1..] == "";
  }

  lemma PlusRegex(c: char)
    requires c != '+'
    ensures Backtrack([Atom(Char(c), OneOrMore, false)], [c, c]) == Some([])
    ensures Backtrack([Atom(Char(c), OneOrMore, false)], [c, '+']) == None
  {
    var a := Atom(Char(c), OneOrMore, false);
    MatchesOne(a, [c, c], []);
    BacktrackComplete([a], [c, c], []);
    BacktrackSound([a], [c, c]);
    BacktrackSound([a], [c, '+']);
    hide Backtrack, Matches;
    var r, none := Backtrack([a], [c, c]), Backtrack([a], [c, '+']);
    MatchesOne(a, [c, c], r.value);
    assert [c, '+'][1] == '+' && !Takes(a.item, '+');
    assert !Word(a, [c, '+']);
    if none.Some? {
      MatchesOne(a, [c, '+'], none.value);
    }
  }

  lemma ReadRepeat(c: char, q: char)
    requires !Meta(c) && Quantifies(q)
    ensures Parse([c, q]) == Some([Atom(Char(c), ReadQuantifier([q]).0, false)])
  {
    var a := Atom(Char(c), ReadQuantifier([q]).0, false);
    assert [c, q][1..] == [q] && [q][1..] == "";
    assert ReadItem([c, q]) == Some((Char(c), [q]));
    assert ReadAtom([c, q]) == Some((a, ""));
    ParseStep([c, q], a, "");
    assert [a] + [] == [a];
  }

  /** What a repeated character denotes: any number of it, at least one, or at most one. */
  lemma RepeatDenotes(c: char, s: string, captures: seq<string>)
    requires !Meta(c)
    ensures RegexMatches("^" + [c, '*'] + "$", s, captures) <==> captures == [] && forall d :: d in s ==> d == c
    ensures RegexMatches("^" + [c, '+'] + "$", s, captures) <==>
              captures == [] && s != "" && forall d :: d in s ==> d == c
    ensures RegexMatches("^" + [c, '?'] + "$", s, captures) <==> captures == [] && (s == "" || s == [c])
  {
    assert |s| == 1 ==> s[0] in s && s == [s[0]];
    hide Parse, ParseAnchored, Matches, Meta;
    ReadRepeat(c, '*');
    ReadRepeat(c, '+');
    ReadRepeat(c, '?');
    RepeatMatches([c, '*'], Atom(Char(c), Many, false), s, captures);
    RepeatMatches([c, '+'], Atom(Char(c), OneOrMore, false), s, captures);
    RepeatMatches([c, '?'], Atom(Char(c), AtMostOne, false), s, captures);
  }

  lemma RepeatMatches(middle: string, a: Atom, s: string, captures: seq<string>)
    requires Parse(middle) == Some([a])
    ensures RegexMatches("^" + middle + "$", s, captures) <==> Word(a, s) && captures == if a.captured then [s] else []
  {
    var text := "^" + middle + "$";
    assert text[1..|text| - 1] == middle;
    hide Parse, Matches;
    MatchesOne(a, s, captures);
  }

  /** The emitted group matches the strings that are not empty and have no slash, and captures them. */
  lemma GroupText(s: string, captures: seq<string>)
    ensures RegexMatches("^([^/]+)$", s, captures) <==> s != "" && '/' !in s && captures == [s]
  {
    hide Matches, ParseAnchored;
    assert "^([^/]+)$" == "^" + Group() + "$";
    GroupReads();
    MatchesOne(Param(), s, captures);
  }

  /** With a star in place of the plus the group would match the empty string as well. */
  lemma StarGroupText(s: string, captures: seq<string>)
    ensures RegexMatches("^([^/]*)$", s, captures) <==> '/' !in s && captures == [s]
  {
    hide Matches, ParseAnchored;
    var group := "([^" + "/" + "]" + "*" + ")";
    var a := Atom(Except('/'), Many, true);
    ReadGroupOf('/', '*', "");
    assert "([^" + "/" + "]" + "*" + ")" + "" == group;
    AnchoredOne(group, a);
    assert "^([^/]*)$" == "^" + group + "$";
    MatchesOne(a, s, captures);
  }

  /** The text of a word without parameters and dots, followed by one parameter. */
  lemma CompilesTo(word: string, name: string)
    requires ':' !in word && '.' !in word && '/' !in name
    ensures Compile(word + ":" + name) == "^" + word + "([^/]+)$"
  {
    EmitAfter(word, ":" + name);
    EmitParam(name);
    assert word + ":" + name == word + (":" + name);
    assert "^" + (word + Group()) + "$" == "^" + word + "([^/]+)$";
  }

  lemma {:induction false} EmitAfter(word: string, rest: string)
    requires ':' !in word && '.' !in word
    ensures Emit(word + rest) == word + Emit(rest)
  {
    hide Emit;
    if word == "" {
      assert word + rest == rest;
    } else {
      EmitAfter(word[1..], rest);
      EmitLetter(word[0], word[1..] + rest);
      HeadOfSum(word, rest);
      HeadOfSum(word, Emit(rest));
    }
  }

  lemma EmitLetter(c: char, rest: string)
    requires c != ':' && c != '.'
    ensures Emit([c] + rest) == [c] + Emit(rest)
  {
    assert ([c] + rest)[1..] == rest;
  }

  lemma HeadOfSum(word: string, rest: string)
    requires word != ""
    ensures word + rest == [word[0]] + (word[1..] + rest)
  {
  }

  /** The compiled texts of three patterns. */
  lemma CompiledTexts()
    ensures Compile(":id") == "^([^/]+)$"
    ensures Compile("/api/v1/clients/:id") == "^/api/v1/clients/([^/]+)$"
    ensures Compile("a.b") == "^a\\.b$"
  {
    hide Compile, Emit;
    ParamText();
    ClientText();
    EmitDot();
  }

  lemma ParamText()
    ensures Compile(":id") == "^([^/]+)$"
  {
    hide Compile, Emit;
    CompilesTo("", "id");
    assert "" + ":" + "id" == ":id";
    assert "^" + "" + "([^/]+)$" == "^([^/]+)$";
  }

  lemma ClientText()
    ensures Compile("/api/v1/clients/:id") == "^/api/v1/clients/([^/]+)$"
  {
    hide Compile, Emit;
    CompilesTo("/api/v1/clients/", "id");
    assert "/api/v1/clients/" + ":" + "id" == "/api/v1/clients/:id";
    assert "^" + "/api/v1/clients/" + "([^/]+)$" == "^/api/v1/clients/([^/]+)$";
  }

  lemma EmitDot()
    ensures Compile("a.b") == "^a\\.b$"
  {
    EmitAfter("a", ".b");
    PlainEmit("b");
    assert "a.b" == "a" + ".b" && ".b"[1..] == "b";
  }

  /** The characters that make a pattern unsafe. */
  lemma SafeCharacters(c: char)
    ensures Safe([c]) <==> c !in "^$\\*+?()[]{}|"
  {
    SafeTail([c]);
    assert AtomsOf("") == [];
  }

  // ----- A prefix and one parameter -----

  lemma {:induction false} PrefixStep(word: string, pattern: string, path: string)
    requires ':' !in word
    ensures MatchPath(word + pattern, word + path) == MatchPath(pattern, path)
  {
    hide MatchPath;
    if word == "" {
      assert word + pattern == pattern && word + path == path;
    } else {
      LiteralStep(word + pattern, word + path);
      assert (word + pattern)[1..] == word[1..] + pattern && (word + path)[1..] == word[1..] + path;
      PrefixStep(word[1..], pattern, path);
    }
  }

  lemma {:induction false} PrefixNeeded(word: string, pattern: string, path: string)
    requires ':' !in word && MatchPath(word + pattern, path).Some?
    ensures word <= path
  {
    hide MatchPath;
    if word != "" {
      LiteralStep(word + pattern, path);
      assert (word + pattern)[1..] == word[1..] + pattern;
      PrefixNeeded(word[1..], pattern, path[1..]);
      assert word == [word[0]] + word[1..] && path == [path[0]] + path[1..];
    }
  }

  /** A route of a word and one parameter answers that word followed by any non-empty value without a slash. */
  lemma PrefixThenParam(word: string, name: string, path: string, captures: seq<string>)
    requires ':' !in word && '/' !in name
    ensures MatchPath(word + ":" + name, path) == Some(captures) <==>
              && |captures| == 1 && captures[0] != "" && '/' !in captures[0]
              && path == word + captures[0]
  {
    var pattern := ":" + name;
    assert word + ":" + name == word + pattern;
    hide MatchPath;
    if word <= path {
      var value := path[|word|..];
      assert path == word + value;
      PrefixStep(word, pattern, value);
      OnlyParam(name, value);
      assert |captures| == 1 && path == word + captures[0] ==> captures[0] == value && captures == [value];
    } else if MatchPath(word + pattern, path).Some? {
      PrefixNeeded(word, pattern, path);
    }
  }

  lemma OnlyParam(name: string, value: string)
    requires '/' !in name
    ensures MatchPath(":" + name, value) == if value != "" && '/' !in value then Some([value]) else None
  {
    hide MatchPath;
    var pattern, k := ":" + name, FirstSlash(value);
    ParamStep(pattern, value);
    assert forall c :: c in pattern ==> c == ':' || c in name;
    assert FirstSlash(pattern) == |pattern| && pattern[|pattern|..] == "";
    EmptyPattern(value[k..]);
    assert k == |value| ==> value[..k] == value && value[k..] == "";
    assert [value[..k]] + [] == [value[..k]];
  }

  /** The registered route for one client, with every library: its text, and exactly the paths it answers. */
  lemma ClientById(lib: Library, path: string, captures: seq<string>)
    ensures Safe("/api/v1/clients/:id")
    ensures RegexMatch(lib, "^/api/v1/clients/([^/]+)$", path) == Some(captures) <==>
              && |captures| == 1 && captures[0] != "" && '/' !in captures[0]
              && path == "/api/v1/clients/" + captures[0]
  {
    hide *;
    assert "/api/v1/clients/" + ":" + "id" == "/api/v1/clients/:id";
    ClientText();
    ClientWord();
    SafePrefix("/api/v1/clients/", "id");
    SafeMatch(lib, "/api/v1/clients/:id", path);
    PrefixThenParam("/api/v1/clients/", "id", path, captures);
  }

  lemma ClientWord()
    ensures ':' !in "/api/v1/clients/" && OrdinaryPath("/api/v1/clients/")
  {
    hide Ordinary;
    SlashOrAlphanumericIsOrdinary();
    assert forall c :: c in "/api/v1/clients/" ==> c == '/' || '0' <= c <= '9' || 'a' <= c <= 'z';
  }

  lemma SlashOrAlphanumericIsOrdinary()
    ensures forall c :: c == '/' || '0' <= c <= '9' || 'a' <= c <= 'z' ==> Ordinary(c)
  {
  }

  lemma SafeMatch(lib: Library, pattern: string, path: string)
    requires Safe(pattern)
    ensures RegexMatch(lib, Compile(pattern), path) == MatchPath(pattern, path)
  {
    hide RegexMatch, MatchPath, Compile, Safe;
    SafeIsFaithful(lib, pattern);
  }

  lemma {:induction false} SafePrefix(word: string, name: string)
    requires ':' !in word && '/' !in name && OrdinaryPath(word)
    ensures Safe(word + ":" + name)
  {
    hide AtomsOf, Safe, Ordinary;
    var pattern := word + ":" + name;
    SafeTail(pattern);
    if word == "" {
      assert forall c :: c in pattern ==> c == ':' || c in name;
      assert FirstSlash(pattern) == |pattern| && pattern[|pattern|..] == "";
      SafeNothing();
    } else {
      assert word[0] in word;
      SafePrefix(word[1..], name);
      assert pattern[1..] == word[1..] + ":" + name;
    }
  }

  lemma SafeNothing()
    ensures Safe("")
  {
  }

  // ----- The router -----

  /** `find(c, from)`, with the length of the string standing for npos. */
  method FindFrom(s: string, c: char, from: nat) returns (k: nat)
    requires from <= |s|
    ensures from <= k <= |s| && c !in s[from..k] && (k < |s| ==> s[k] == c)
  {
    k := from;
    while k < |s| && s[k] != c
      invariant from <= k <= |s| && c !in s[from..k]
    {
      assert s[from..k + 1] == s[from..k] + [s[k]];
      k := k + 1;
    }
  }

  lemma {:induction false} FirstSlashUnique(s: string, k: nat)
    requires k <= |s| && '/' !in s[..k] && (k < |s| ==> s[k] == '/')
    ensures FirstSlash(s) == k
  {
    if k > 0 {
      assert s[..k] == [s[0]] + s[1..][..k - 1];
      FirstSlashUnique(s[1..], k - 1);
    }
  }

  /** One pass of the compiler's loop: what is appended at `pos`, and where the loop goes on. */
  method NextPiece(path: string, pos: nat) returns (piece: string, next: nat)
    requires pos < |path|
    ensures pos < next <= |path|
    ensures piece + Emit(path[next..]) == Emit(path[pos..])
  {
    hide *;
    ghost var tail := path[pos..];
    EmitHead(tail);
    OneStep(tail);
    if path[pos] == ':' {
      next := FindFrom(path, '/', pos);
      assert tail[..next - pos] == path[pos..next];
      FirstSlashUnique(tail, next - pos);
      piece := Group();
    } else {
      piece := if path[pos] == '/' then "/" else if path[pos] == '.' then "\\." else [path[pos]];
      next := pos + 1;
      assert path[pos] == '/' ==> piece == [path[pos]];
    }
    assert tail[next - pos..] == path[next..];
  }

  method PathToRegex(path: string) returns (regex: string)
    ensures regex == Compile(path)
  {
    hide Emit;
    regex := "^";
    var pos := 0;
    assert path[0..] == path;
    while pos < |path|
      invariant pos <= |path|
      invariant regex + Emit(path[pos..]) == "^" + Emit(path)
    {
      var piece, next := NextPiece(path, pos);
      assert regex + (piece + Emit(path[next..])) == (regex + piece) + Emit(path[next..]);
      regex, pos := regex + piece, next;
    }
    EmitNothing();
    assert path[pos..] == "" && regex + "" == regex;
    regex := regex + "$";
  }

  lemma EmitNothing()
    ensures Emit("") == ""
  {
  }

  /** The path of a request target: everything before the query string. */
  function PathOf(target: string): (path: string)
    ensures path <= target && '?' !in path && (path == target || target[|path|] == '?')
  {
    if target == "" || target[0] == '?' then ""
    else
      var rest := PathOf(target[1..]);
      assert target == [target[0]] + target[1..];
      [target[0]] + rest
  }

  lemma {:induction false} PathOfUnique(target: string, k: nat)
    requires k <= |target| && '?' !in target[..k] && (k < |target| ==> target[k] == '?')
    ensures PathOf(target) == target[..k]
  {
    if k > 0 {
      assert target[..k] == [target[0]] + target[1..][..k - 1];
      PathOfUnique(target[1..], k - 1);
    }
  }

  datatype Route = Route(verb: string, pattern: string, text: string)

  /** The route is for this method, and its expression matches the path. */
  predicate Answers(lib: Library, route: Route, verb: string, path: string) {
    route.verb == verb && RegexMatch(lib, route.text, path).Some?
  }

  class Router {
    const lib: Library
    var routes: seq<Route>

    /** Every stored text is the compiled form of its pattern, and the library accepts it. */
    ghost predicate Valid()
      reads this
    {
      forall i :: 0 <= i < |routes| ==>
        routes[i].text == Compile(routes[i].pattern) && Accepted(lib, routes[i].text)
    }

    constructor (lib: Library)
      ensures Valid() && routes == [] && this.lib == lib
    {
      this.lib := lib;
      routes := [];
    }

    /** Fails, and registers nothing, when the library rejects the compiled text. */
    method AddRoute(verb: string, path: string) returns (ok: bool)
      requires Valid()
      modifies this
      ensures Valid()
      ensures ok == Accepted(lib, Compile(path))
      ensures routes == if ok then old(routes) + [Route(verb, path, Compile(path))] else old(routes)
      ensures Safe(path) ==> ok
    {
      if Safe(path) {
        Unanchored(path);
        EmitReadsBack(path);
      }
      hide Safe, Compile, ParseAnchored;
      var text := PathToRegex(path);
      ok := Accepted(lib, text);
      if ok {
        routes := routes + [Route(verb, path, text)];
      }
    }

    /**
     Returns the index of the route whose handler runs, and the captures it is given: the first registered route for
     the method whose expression matches the path. Routes with safe patterns match segment by segment.
     */
    method HandleRequest(verb: string, target: string) returns (r: Option<(nat, seq<string>)>)
      requires Valid()
      ensures r.None? ==> forall j :: 0 <= j < |routes| ==> !Answers(lib, routes[j], verb, PathOf(target))
      ensures r.Some? ==>
                && r.value.0 < |routes| && Answers(lib, routes[r.value.0], verb, PathOf(target))
                && RegexMatch(lib, routes[r.value.0].text, PathOf(target)) == Some(r.value.1)
                && forall j :: 0 <= j < r.value.0 ==> !Answers(lib, routes[j], verb, PathOf(target))
      ensures forall j :: 0 <= j < |routes| && Safe(routes[j].pattern) ==>
                RegexMatch(lib, routes[j].text, PathOf(target)) == MatchPath(routes[j].pattern, PathOf(target))
    {
      hide Safe, Compile, MatchPath, RegexMatch, PathOf, ParseAnchored;
      forall j | 0 <= j < |routes| && Safe(routes[j].pattern)
        ensures RegexMatch(lib, routes[j].text, PathOf(target)) == MatchPath(routes[j].pattern, PathOf(target))
      {
        SafeIsFaithful(lib, routes[j].pattern);
      }
      var qpos := FindFrom(target, '?', 0);
      var path := target[..qpos];
      assert target[0..qpos] == path;
      PathOfUnique(target, qpos);
      for i := 0 to |routes|
        invariant forall j :: 0 <= j < i ==> !Answers(lib, routes[j], verb, path)
      {
        if routes[i].verb == verb {
          var found := RegexMatch(lib, routes[i].text, path);
          if found.Some? {
            return Some((i, found.value));
          }
        }
      }
      r := None;
    }
  }
}
