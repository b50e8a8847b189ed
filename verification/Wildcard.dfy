/** Resource patterns with `*` wildcards, compiled to regular expressions (api/config/v1/resources.go),
    and the proof that the compilation means what a wildcard should. */
module Wildcard {
  import opened Text

  // ---------- the compiler ----------

  predicate IsMeta(c: char) {
    c in {'\\', '.', '+', '*', '?', '(', ')', '|', '[', ']', '{', '}', '^', '$'}
  }

  /** regexp.QuoteMeta: a backslash before every meta character. */
  function QuoteMeta(s: string): string {
    if s == "" then "" else (if IsMeta(s[0]) then ['\\', s[0]] else [s[0]]) + QuoteMeta(s[1..])
  }

  function QuoteAll(literals: seq<string>): seq<string> {
    seq(|literals|, k requires 0 <= k < |literals| => QuoteMeta(literals[k]))
  }

  /** The literals quoted and separated by "match anything". */
  function Compiled(pattern: string): string { Join(QuoteAll(Split(pattern, '*')), ".*") }

  method WildCardToRegexp(pattern: string) returns (result: string)
    ensures result == Compiled(pattern)
  {
    var literals := Split(pattern, '*');
    result := "";
    for i := 0 to |literals|
      invariant result == Join(QuoteAll(literals[..i]), ".*")
    {
      assert QuoteAll(literals[..i + 1]) == QuoteAll(literals[..i]) + [QuoteMeta(literals[i])];
      JoinSnoc(QuoteAll(literals[..i]), QuoteMeta(literals[i]), ".*");
      if i > 0 { result := result + ".*"; }
      result := result + QuoteMeta(literals[i]);
    }
    assert literals[..|literals|] == literals;
  }

  // ---------- regular expressions ----------

  /** The part of the syntax the compiler produces: literal characters, "any character but a newline",
      and either repeated any number of times. */
  datatype Atom = Lit(c: char) | Dot
  datatype Item = One(atom: Atom) | Many(atom: Atom)

  /** The first atom and the rest; `None` for anything outside this part of the syntax. */
  function ParseAtom(re: string): Option<(Atom, string)>
    requires re != ""
  {
    if re[0] == '\\' then
      if |re| >= 2 && IsMeta(re[1]) then Some((Lit(re[1]), re[2..])) else None
    else if re[0] == '.' then Some((Dot, re[1..]))
    else if IsMeta(re[0]) then None
    else Some((Lit(re[0]), re[1..]))
  }

  function Parse(re: string): Option<seq<Item>> {
    if re == "" then Some([])
    else match ParseAtom(re)
      case None => None
      case Some((atom, rest)) =>
        if |rest| < |re| then
          var many := rest != "" && rest[0] == '*';
          match Parse(if many then rest[1..] else rest)
          case None => None
          case Some(items) => Some([if many then Many(atom) else One(atom)] + items)
        else None
  }

  predicate Accepts(atom: Atom, c: char) {
    match atom case Lit(x) => c == x case Dot => c != '\n'
  }

  /** The expression matches the whole string. */
  predicate MatchesAll(items: seq<Item>, s: string)
    decreases |items| + |s|
  {
    if items == [] then s == ""
    else match items[0]
      case One(a) => s != "" && Accepts(a, s[0]) && MatchesAll(items[1..], s[1..])
      case Many(a) => MatchesAll(items[1..], s) || (s != "" && Accepts(a, s[0]) && MatchesAll(items, s[1..]))
  }

  /** regexp.MatchString: the expression matches somewhere in the string. */
  ghost predicate Found(items: seq<Item>, s: string) {
    exists i, j :: 0 <= i <= j <= |s| && MatchesAll(items, s[i..j])
  }

  /** `ResourcePattern.Matches`: an expression that does not parse matches nothing. */
  ghost predicate PatternMatches(pattern: string, s: string) {
    var re := Parse(Compiled(pattern));
    re.Some? && Found(re.value, s)
  }

  // ---------- parsing the compiler's output ----------

  function Literals(s: string): seq<Item> { seq(|s|, k requires 0 <= k < |s| => One(Lit(s[k]))) }

  /** Literal texts with an any-string between each two. */
  function Items(literals: seq<string>): seq<Item> {
    if |literals| == 0 then []
    else if |literals| == 1 then Literals(literals[0])
    else Literals(literals[0]) + [Many(Dot)] + Items(literals[1..])
  }

  /** A quoted character in front of an expression that does not start with a repetition. */
  lemma ParseQuotedChar(c: char, tail: string)
    requires (tail == "" || tail[0] != '*') && Parse(tail).Some?
    ensures var re := (if IsMeta(c) then ['\\', c] else [c]) + tail;
      re[0] != '*' && Parse(re) == Some([One(Lit(c))] + Parse(tail).value)
  {}

  /** A quoted text in front of an expression that does not start with a repetition. */
  lemma {:induction false} ParseQuoted(s: string, rest: string)
    requires (rest == "" || rest[0] != '*') && Parse(rest).Some?
    ensures Parse(QuoteMeta(s) + rest) == Some(Literals(s) + Parse(rest).value)
    ensures (QuoteMeta(s) + rest) == "" || (QuoteMeta(s) + rest)[0] != '*'
  {
    hide Parse, IsMeta;
    if s == "" {
      assert QuoteMeta(s) + rest == rest;
      assert Literals(s) + Parse(rest).value == Parse(rest).value;
    } else {
      ParseQuoted(s[1..], rest);
      var tail := QuoteMeta(s[1..]) + rest;
      ParseQuotedChar(s[0], tail);
      QuoteCons(s, rest);
      LiteralsCons(s, Parse(rest).value);
    }
  }

  lemma QuoteCons(s: string, rest: string)
    requires s != ""
    ensures QuoteMeta(s) + rest == (if IsMeta(s[0]) then ['\\', s[0]] else [s[0]]) + (QuoteMeta(s[1..]) + rest)
  {}

  lemma LiteralsCons(s: string, items: seq<Item>)
    requires s != ""
    ensures Literals(s) + items == [One(Lit(s[0]))] + (Literals(s[1..]) + items)
  {}

  /** The compiled expression parses as the literals separated by any-strings. */
  lemma {:induction false} ParseJoined(literals: seq<string>)
    ensures Parse(Join(QuoteAll(literals), ".*")) == Some(Items(literals))
  {
    hide Parse, QuoteMeta;
    assert Parse("") == Some([]) by { ParseNothing(); }
    if |literals| == 1 {
      ParseQuoted(literals[0], "");
      assert QuoteMeta(literals[0]) + "" == QuoteMeta(literals[0]);
      assert Literals(literals[0]) + [] == Literals(literals[0]);
    } else if |literals| > 1 {
      ParseJoined(literals[1..]);
      assert QuoteAll(literals)[1..] == QuoteAll(literals[1..]);
      var tail := Join(QuoteAll(literals[1..]), ".*");
      ParseAny(tail);
      ParseQuoted(literals[0], ".*" + tail);
      assert Join(QuoteAll(literals), ".*") == QuoteMeta(literals[0]) + (".*" + tail);
      assert Literals(literals[0]) + ([Many(Dot)] + Items(literals[1..])) == Items(literals);
    }
  }

  lemma ParseNothing()
    ensures Parse("") == Some([])
  {}

  lemma ParseAny(tail: string)
    requires Parse(tail).Some?
    ensures Parse(".*" + tail) == Some([Many(Dot)] + Parse(tail).value)
  {}

  // ---------- what a match means ----------

  ghost predicate NoNewline(s: string) { '\n' !in s }

  /** The literal occurs at the position. */
  ghost predicate Sits(l: string, s: string, p: nat) { p + |l| <= |s| && s[p..p + |l|] == l }

  /** The position comes after the end of the literal before, with no newline in between. */
  ghost predicate Follows(s: string, end: nat, p: nat) { end <= p <= |s| && NoNewline(s[end..p]) }

  /** The literals occur in `s` at the given positions, in order, without overlap, and with no newline
      in between. */
  ghost predicate Placed(literals: seq<string>, s: string, at: seq<nat>) {
    && |at| == |literals|
    && (forall k :: 0 <= k < |at| ==> Sits(literals[k], s, at[k]))
    && (forall k :: 0 < k < |at| ==> Follows(s, at[k - 1] + |literals[k - 1]|, at[k]))
  }

  /** They also begin where `s` begins and end where it ends. */
  ghost predicate Spans(literals: seq<string>, s: string, at: seq<nat>) {
    && literals != [] && Placed(literals, s, at)
    && at[0] == 0 && at[|at| - 1] + |literals[|at| - 1]| == |s|
  }

  lemma {:induction false} LiteralsMatch(l: string, rest: seq<Item>, s: string)
    ensures MatchesAll(Literals(l) + rest, s) <==> l <= s && MatchesAll(rest, s[|l|..])
  {
    if l == "" {
      assert Literals(l) + rest == rest;
    } else {
      var items := Literals(l) + rest;
      assert items[0] == One(Lit(l[0])) && items[1..] == Literals(l[1..]) + rest;
      if s != "" {
        LiteralsMatch(l[1..], rest, s[1..]);
        if l <= s { assert s[1..][|l| - 1..] == s[|l|..]; }
      }
    }
  }

  /** A newline-free gap of `g` characters, then a match of the rest. */
  ghost predicate GapMatches(rest: seq<Item>, s: string, g: nat) {
    g <= |s| && NoNewline(s[..g]) && MatchesAll(rest, s[g..])
  }

  lemma {:induction false} AnyMatches(rest: seq<Item>, s: string)
    ensures MatchesAll([Many(Dot)] + rest, s) <==> exists g: nat :: GapMatches(rest, s, g)
    decreases |s|
  {
    var items := [Many(Dot)] + rest;
    assert items[1..] == rest;
    assert s[0..] == s;
    assert GapMatches(rest, s, 0) <==> MatchesAll(rest, s);
    if s != "" {
      AnyMatches(rest, s[1..]);
      forall g: nat ensures GapMatches(rest, s, g + 1) <==> s[0] != '\n' && GapMatches(rest, s[1..], g) {
        GapShorter(rest, s, g);
      }
      if s[0] != '\n' && MatchesAll(items, s[1..]) {
        var g: nat :| GapMatches(rest, s[1..], g);
        assert GapMatches(rest, s, g + 1);
      }
      if g: nat :| GapMatches(rest, s, g) && g > 0 {
        var h: nat := g - 1;
        assert GapMatches(rest, s, h + 1);
        assert GapMatches(rest, s[1..], h);
        assert Accepts(Dot, s[0]) && MatchesAll(items, s[1..]);
      }
    }
  }

  lemma GapShorter(rest: seq<Item>, s: string, g: nat)
    requires s != ""
    ensures GapMatches(rest, s, g + 1) <==> s[0] != '\n' && GapMatches(rest, s[1..], g)
  {}

  /** `s` starts with the first literal, then a newline-free gap of `g` characters, then a match of the
      other literals. */
  ghost predicate SplitsAt(literals: seq<string>, s: string, g: nat)
    requires |literals| > 1
  {
    var n := |literals[0]|;
    && literals[0] <= s && n + g <= |s|
    && NoNewline(s[n..n + g])
    && MatchesAll(Items(literals[1..]), s[n + g..])
  }

  lemma MatchSplits(literals: seq<string>, s: string)
    requires |literals| > 1
    ensures MatchesAll(Items(literals), s) <==> exists g: nat :: SplitsAt(literals, s, g)
  {
    var l, others := literals[0], Items(literals[1..]);
    var more := [Many(Dot)] + others;
    assert Items(literals) == Literals(l) + more;
    hide MatchesAll, Items, SplitsAt;
    LiteralsMatch(l, more, s);
    if l <= s {
      AnyMatches(others, s[|l|..]);
      forall g: nat ensures SplitsAt(literals, s, g) <==> GapMatches(others, s[|l|..], g) {
        SplitInTail(literals, s, g);
      }
    } else {
      forall g: nat ensures !SplitsAt(literals, s, g) { SplitInTail(literals, s, g); }
    }
  }

  lemma SplitInTail(literals: seq<string>, s: string, g: nat)
    requires |literals| > 1
    ensures SplitsAt(literals, s, g) <==>
              literals[0] <= s && GapMatches(Items(literals[1..]), s[|literals[0]|..], g)
  {}

  lemma MatchSingle(l: string, s: string)
    ensures MatchesAll(Items([l]), s) <==> l == s
  {
    assert Literals(l) + [] == Literals(l) == Items([l]);
    LiteralsMatch(l, [], s);
    if l <= s && s[|l|..] == "" { assert s == l + s[|l|..]; }
  }

  /** A match of the whole string places the literals across it. */
  lemma {:induction false} MatchPlaces(literals: seq<string>, s: string) returns (at: seq<nat>)
    requires literals != [] && MatchesAll(Items(literals), s)
    ensures Spans(literals, s, at)
  {
    hide MatchesAll, Items;
    if |literals| == 1 {
      assert literals == [literals[0]];
      MatchSingle(literals[0], s);
      at := [0];
    } else {
      MatchSplits(literals, s);
      var g: nat :| SplitsAt(literals, s, g);
      var n := |literals[0]| + g;
      var rest := MatchPlaces(literals[1..], s[n..]);
      at := [0] + Shift(rest, n);
      SpansFront(literals, s, g, rest);
    }
  }

  /** The first literal sits at the front, and the others follow after the gap. */
  lemma FrontSits(literals: seq<string>, s: string, g: nat)
    requires |literals| > 1 && SplitsAt(literals, s, g)
    ensures Sits(literals[0], s, 0) && Follows(s, |literals[0]|, |literals[0]| + g)
    ensures |literals[0]| + g <= |s|
  {
    hide MatchesAll, Items;
  }

  /** The positions of the others, moved behind the gap. */
  lemma TailSpans(literals: seq<string>, s: string, n: nat, rest: seq<nat>)
    requires |literals| > 1 && n <= |s| && Spans(literals[1..], s[n..], rest)
    ensures |rest| == |literals| - 1 && rest[0] == 0
    ensures Placed(literals[1..], s, Shift(rest, n))
    ensures rest[|rest| - 1] + n + |literals[|rest|]| == |s|
  {
    PlacedShift(literals[1..], s, n, rest);
    hide Placed, Shift;
    assert literals[1..][|rest| - 1] == literals[|rest|];
  }

  lemma PositionsCons(rest: seq<nat>, n: nat)
    requires rest != [] && rest[0] == 0
    ensures var at := [0] + Shift(rest, n);
      && |at| == |rest| + 1 && at[0] == 0 && at[1] == n
      && at[1..] == Shift(rest, n) && at[|rest|] == rest[|rest| - 1] + n
  {}

  lemma SpansFront(literals: seq<string>, s: string, g: nat, rest: seq<nat>)
    requires |literals| > 1 && SplitsAt(literals, s, g)
    requires Spans(literals[1..], s[|literals[0]| + g..], rest)
    ensures Spans(literals, s, [0] + Shift(rest, |literals[0]| + g))
  {
    hide SplitsAt, Placed, Sits, Follows, Shift, MatchesAll, Items;
    var n := |literals[0]| + g;
    FrontSits(literals, s, g);
    TailSpans(literals, s, n, rest);
    PositionsCons(rest, n);
    PlacedCons(literals, s, [0] + Shift(rest, n));
  }

  function Shift(at: seq<nat>, n: nat): (r: seq<nat>)
    ensures |r| == |at| && forall k :: 0 <= k < |at| ==> r[k] == at[k] + n
  {
    seq(|at|, k requires 0 <= k < |at| => at[k] + n)
  }

  lemma SliceOfSlice(s: string, i: nat, j: nat, a: nat, b: nat)
    requires i <= j <= |s| && a <= b <= j - i
    ensures s[i..j][a..b] == s[a + i..b + i]
  {
    forall q | 0 <= q < b - a ensures s[i..j][a..b][q] == s[a + i..b + i][q] {
      assert s[i..j][a..b][q] == s[i..j][a + q] == s[i + (a + q)];
    }
  }

  lemma SitsWindow(l: string, s: string, i: nat, j: nat, p: nat)
    requires i <= j <= |s|
    ensures Sits(l, s[i..j], p) <==> i + p + |l| <= j && Sits(l, s, p + i)
  {
    if i + p + |l| <= j { SliceOfSlice(s, i, j, p, p + |l|); }
  }

  lemma FollowsWindow(s: string, i: nat, j: nat, end: nat, p: nat)
    requires i <= j <= |s|
    ensures Follows(s[i..j], end, p) <==> i + p <= j && Follows(s, end + i, p + i)
  {
    if i + p <= j && end <= p { SliceOfSlice(s, i, j, end, p); }
  }

  /** Positions in a window, moved to the whole string. */
  lemma PlacedWindow(literals: seq<string>, s: string, i: nat, j: nat, at: seq<nat>)
    requires i <= j <= |s| && |at| == |literals|
    ensures Placed(literals, s[i..j], at) <==>
              Placed(literals, s, Shift(at, i)) && forall k :: 0 <= k < |at| ==> i + at[k] + |literals[k]| <= j
  {
    hide Sits, Follows;
    var moved := Shift(at, i);
    forall k | 0 <= k < |at|
      ensures Sits(literals[k], s[i..j], at[k]) <==> i + at[k] + |literals[k]| <= j && Sits(literals[k], s, moved[k])
    {
      SitsWindow(literals[k], s, i, j, at[k]);
    }
    forall k | 0 < k < |at|
      ensures Follows(s[i..j], at[k - 1] + |literals[k - 1]|, at[k]) <==>
                i + at[k] <= j && Follows(s, moved[k - 1] + |literals[k - 1]|, moved[k])
    {
      FollowsWindow(s, i, j, at[k - 1] + |literals[k - 1]|, at[k]);
    }
  }

  lemma PlacedShift(literals: seq<string>, s: string, n: nat, at: seq<nat>)
    requires n <= |s| && |at| == |literals|
    ensures Placed(literals, s[n..], at) <==> Placed(literals, s, Shift(at, n))
  {
    PlacedWindow(literals, s, n, |s|, at);
    assert s[n..|s|] == s[n..];
    if Placed(literals, s, Shift(at, n)) {
      forall k | 0 <= k < |at| ensures n + at[k] + |literals[k]| <= |s| {
        assert Sits(literals[k], s, Shift(at, n)[k]);
      }
    }
  }

  /** Placing the first literal in front of a placement of the others, and taking it off again. */
  lemma PlacedCons(literals: seq<string>, s: string, at: seq<nat>)
    requires |literals| > 1 && |at| == |literals|
    ensures Placed(literals, s, at) <==>
              && Sits(literals[0], s, at[0]) && Follows(s, at[0] + |literals[0]|, at[1])
              && Placed(literals[1..], s, at[1..])
  {}

  /** The positions grow, and so do the ends of the literals. */
  lemma {:induction false} PlacedOrder(literals: seq<string>, s: string, at: seq<nat>, j: nat, k: nat)
    requires Placed(literals, s, at) && j <= k < |at|
    ensures at[j] <= at[k] && at[j] + |literals[j]| <= at[k] + |literals[k]| <= |s|
    decreases k - j
  {
    assert Sits(literals[k], s, at[k]);
    if j < k {
      PlacedOrder(literals, s, at, j, k - 1);
      assert Follows(s, at[k - 1] + |literals[k - 1]|, at[k]);
    }
  }

  /** Positions counted from the `from`-th one. */
  lemma Unshift(literals: seq<string>, s: string, at: seq<nat>, from: nat) returns (rest: seq<nat>)
    requires Placed(literals, s, at) && from < |at|
    ensures |rest| == |at| - from && rest[0] == 0 && Shift(rest, at[from]) == at[from..]
  {
    forall k | from <= k < |at| ensures at[from] <= at[k] { PlacedOrder(literals, s, at, from, k); }
    rest := seq(|at| - from, k requires 0 <= k < |at| - from => at[from + k] - at[from]);
  }

  /** Literals placed across the whole string are a match of it. */
  lemma {:induction false} PlacesMatch(literals: seq<string>, s: string, at: seq<nat>)
    requires Spans(literals, s, at)
    ensures MatchesAll(Items(literals), s)
  {
    hide MatchesAll, Items;
    if |literals| == 1 {
      assert literals == [literals[0]] && s[0..|s|] == s;
      MatchSingle(literals[0], s);
    } else {
      var rest := Unshift(literals, s, at, 1);
      SpansTail(literals, s, at, rest);
      PlacesMatch(literals[1..], s[at[1]..], rest);
      var g: nat := at[1] - |literals[0]|;
      assert SplitsAt(literals, s, g);
      MatchSplits(literals, s);
    }
  }

  lemma SpansTail(literals: seq<string>, s: string, at: seq<nat>, rest: seq<nat>)
    requires |literals| > 1 && Spans(literals, s, at)
    requires |rest| == |at| - 1 && Shift(rest, at[1]) == at[1..]
    ensures |literals[0]| <= at[1] <= |s| && literals[0] <= s && NoNewline(s[|literals[0]|..at[1]])
    ensures Spans(literals[1..], s[at[1]..], rest)
  {
    PlacedCons(literals, s, at);
    PlacedShift(literals[1..], s, at[1], rest);
    assert literals[0] == s[0..|literals[0]|];
    assert rest[|rest| - 1] + at[1] == at[1..][|rest| - 1];
    assert rest[0] + at[1] == at[1..][0];
  }

  /** A placement anywhere in the string is a match of the part it covers. */
  lemma PlacedFound(literals: seq<string>, s: string, at: seq<nat>)
    requires literals != [] && Placed(literals, s, at)
    ensures Found(Items(literals), s)
  {
    hide Items, MatchesAll;
    var last := |at| - 1;
    var i, j := at[0], at[last] + |literals[last]|;
    var rest := Unshift(literals, s, at, 0);
    assert at[0..] == at;
    forall k | 0 <= k < |at| ensures i + rest[k] + |literals[k]| <= j && i <= j <= |s| {
      PlacedOrder(literals, s, at, k, last);
      PlacedOrder(literals, s, at, 0, last);
      assert Shift(rest, i)[k] == at[k];
    }
    hide Placed;
    PlacedWindow(literals, s, i, j, rest);
    assert Shift(rest, i)[last] == at[last];
    PlacesMatch(literals, s[i..j], rest);
  }

  /** The compiled pattern means what the wildcard says, for every pattern and string: it parses, and
      searching with it succeeds exactly when the literals of the pattern occur in the string in
      order, without overlap, with no newline between two of them. */
  lemma CompilationPreservesMeaning(pattern: string, s: string)
    ensures Parse(Compiled(pattern)) == Some(Items(Split(pattern, '*')))
    ensures PatternMatches(pattern, s) <==> exists at :: Placed(Split(pattern, '*'), s, at)
  {
    var literals := Split(pattern, '*');
    ParseJoined(literals);
    hide Parse, Items, MatchesAll, Sits, Follows;
    if i, j :| 0 <= i <= j <= |s| && MatchesAll(Items(literals), s[i..j]) {
      var at := MatchPlaces(literals, s[i..j]);
      PlacedWindow(literals, s, i, j, at);
    }
    if at :| Placed(literals, s, at) { PlacedFound(literals, s, at); }
  }

  /** The placement in plain terms: a position for each literal, where it stands in the string, each after
      the end of the one before, with no newline in between. */
  lemma PlacedMeaning(literals: seq<string>, s: string, at: seq<nat>)
    ensures Placed(literals, s, at) <==>
              && |at| == |literals|
              && (forall k :: 0 <= k < |at| ==>
                    at[k] + |literals[k]| <= |s| && s[at[k]..at[k] + |literals[k]|] == literals[k])
              && (forall k :: 0 < k < |at| ==>
                    && at[k - 1] + |literals[k - 1]| <= at[k]
                    && '\n' !in s[at[k - 1] + |literals[k - 1]|..at[k]])
  {}

  /** The expression written for a pattern: everything up to the first star quoted, then ".*", then what is
      written for the rest. */
  lemma CompiledText(head: string, rest: string)
    requires '*' !in head
    ensures Compiled(head) == QuoteMeta(head)
    ensures Compiled(head + "*" + rest) == QuoteMeta(head) + ".*" + Compiled(rest)
  {
    SplitClean(head, '*');
    assert QuoteAll([head]) == [QuoteMeta(head)];
    SplitHead(head, rest, '*');
    var others := Split(rest, '*');
    assert head + "*" + rest == head + ['*'] + rest;
    assert QuoteAll([head] + others) == [QuoteMeta(head)] + QuoteAll(others);
    assert ([QuoteMeta(head)] + QuoteAll(others))[1..] == QuoteAll(others);
  }

  /** Quoting puts a backslash before each special character and leaves the others. */
  lemma QuoteText(c: char, s: string)
    ensures QuoteMeta([c] + s) == (if c in "\\.+*?()|[]{}^$" then ['\\', c] else [c]) + QuoteMeta(s)
  {
    assert ([c] + s)[1..] == s;
    MetaText(c);
  }

  /** The characters with a meaning of their own in a regular expression. */
  lemma MetaText(c: char)
    ensures IsMeta(c) <==> c in "\\.+*?()|[]{}^$"
  {}

  /** On a string without newlines the gaps are unrestricted: the literals need only come in order. */
  lemma NewlineFree(literals: seq<string>, s: string, at: seq<nat>)
    requires NoNewline(s) && |at| == |literals|
    ensures Placed(literals, s, at) <==>
      && (forall k :: 0 <= k < |at| ==> Sits(literals[k], s, at[k]))
      && (forall k :: 0 < k < |at| ==> at[k - 1] + |literals[k - 1]| <= at[k])
  {}

  /** With a newline in between, a wildcard does not match: `.` excludes it. */
  lemma NewlineStops()
    ensures !PatternMatches("a*b", "a\nb")
  {
    SplitHead("a", "b", '*');
    SplitClean("b", '*');
    assert "a" + ['*'] + "b" == "a*b";
    var literals, s := Split("a*b", '*'), "a\nb";
    assert literals == ["a", "b"];
    hide PatternMatches;
    CompilationPreservesMeaning("a*b", s);
    forall at ensures !Placed(literals, s, at) { NotAcross(s, at); }
  }

  lemma NotAcross(s: string, at: seq<nat>)
    requires s == "a\nb"
    ensures !Placed(["a", "b"], s, at)
  {
    if |at| == 2 && Sits("a", s, at[0]) && Sits("b", s, at[1]) {
      assert s[at[0]] == "a"[0] && s[at[1]] == "b"[0];
      assert at[0] == 0 && at[1] == 2;
      assert s[1..2][0] == '\n';
      assert !Follows(s, at[1 - 1] + 1, at[1]);
    }
  }
}
