/** The path parser (src/fs/pparser.c). */
module PathParser {
  import opened Config
  import opened Tokens
  import Strtok

  const SLASH := '/'

  // ---------- paths as values ----------

  /** The number of characters before the first slash, or before the end. */
  function Head(t: string): (n: nat)
    ensures n <= |t| && (n < |t| ==> t[n] == SLASH) && forall i :: 0 <= i < n ==> t[i] != SLASH
  {
    if t == [] || t[0] == SLASH then 0 else 1 + Head(t[1..])
  }

  /** All components, also the empty ones. */
  function Split(t: string): (cs: seq<string>)
    ensures cs != []
  {
    var n := Head(t);
    if n == |t| then [t] else [t[..n]] + Split(t[n + 1..])
  }

  function Join(cs: seq<string>): (t: string) {
    if cs == [] then [] else if |cs| == 1 then cs[0] else cs[0] + [SLASH] + Join(cs[1..])
  }

  predicate SlashFree(c: string) {
    SLASH !in c
  }

  /** The components that the parser takes: one after the other until one is empty. */
  function Parts(t: string): (ps: seq<string>) {
    var n := Head(t);
    if n == 0 then [] else if n == |t| then [t] else [t[..n]] + Parts(t[n + 1..])
  }

  /** The number of components before the first empty one. */
  function Leading(cs: seq<string>): (n: nat)
    ensures n <= |cs| && (n < |cs| ==> cs[n] == []) && forall i :: 0 <= i < n ==> cs[i] != []
  {
    if cs == [] || cs[0] == [] then 0 else 1 + Leading(cs[1..])
  }

  /** Splitting is the one inverse of joining. */
  lemma {:induction false} JoinSplit(t: string)
    ensures Join(Split(t)) == t && forall c :: c in Split(t) ==> SlashFree(c)
    decreases |t|
  {
    var n := Head(t);
    if n < |t| {
      JoinSplit(t[n + 1..]);
      assert Split(t)[1..] == Split(t[n + 1..]);
      assert t == t[..n] + [SLASH] + t[n + 1..];
    }
  }

  lemma {:induction false} SplitJoin(cs: seq<string>)
    requires cs != [] && forall c :: c in cs ==> SlashFree(c)
    ensures Split(Join(cs)) == cs
    decreases |cs|
  {
    var t, n := Join(cs), Head(Join(cs));
    assert SlashFree(cs[0]);
    if |cs| == 1 {
      assert n == |t|;
    } else {
      assert t[|cs[0]|] == SLASH && forall i :: 0 <= i < |cs[0]| ==> t[i] == cs[0][i];
      assert n == |cs[0]|;
      assert t[n + 1..] == Join(cs[1..]) && t[..n] == cs[0];
      SplitJoin(cs[1..]);
    }
  }

  lemma {:induction false} PartsAreLeading(t: string)
    ensures Parts(t) == Split(t)[..Leading(Split(t))]
    decreases |t|
  {
    var n := Head(t);
    if 0 < n < |t| {
      PartsAreLeading(t[n + 1..]);
      assert Split(t)[1..] == Split(t[n + 1..]);
    }
  }

  datatype Path = Path(drive: int, parts: seq<string>)
  datatype Parsed = BadPath | Parsed(path: Path)

  predicate IsDigit(c: char) {
    '0' <= c <= '9'
  }

  /** pathparser_path_valid_format */
  predicate ValidFormat(path: string) {
    |path| >= 3 && IsDigit(path[0]) && path[1] == ':' && path[2] == SLASH
  }

  /** What pathparser_parse makes of a path */
  function Parse(path: string): (r: Parsed) {
    if |path| > MAX_PATH || !ValidFormat(path) then BadPath
    else Parsed(Path(path[0] as int - '0' as int, Parts(path[3..])))
  }

  function Print(p: Path): (t: string)
    requires 0 <= p.drive <= 9
  {
    [(p.drive + '0' as int) as char] + ":/" + Join(p.parts)
  }

  /** A path that is printed is parsed back exactly when its parts are proper and the text not too long. */
  lemma ParsePrintExactlyWhen(p: Path)
    requires 0 <= p.drive <= 9
    ensures Parse(Print(p)) == Parsed(p) <==>
              |Print(p)| <= MAX_PATH && forall c :: c in p.parts ==> c != [] && SlashFree(c)
  {
    var t := Join(p.parts);
    assert Print(p)[3..] == t;
    if forall c :: c in p.parts ==> c != [] && SlashFree(c) {
      PartsOfJoin(p.parts);
    }
    if Parts(t) == p.parts {
      PartsAreProper(t);
    }
  }

  lemma PartsOfJoin(ps: seq<string>)
    requires forall c :: c in ps ==> c != [] && SlashFree(c)
    ensures Parts(Join(ps)) == ps
  {
    if ps != [] {
      PartsAreLeading(Join(ps));
      SplitJoin(ps);
      LeadingAll(ps);
      assert ps[..|ps|] == ps;
    }
  }

  lemma LeadingAll(cs: seq<string>)
    requires forall c :: c in cs ==> c != []
    ensures Leading(cs) == |cs|
  {
    if cs != [] {
      assert cs[0] in cs && forall c :: c in cs[1..] ==> c in cs;
      LeadingAll(cs[1..]);
    }
  }

  lemma PartsAreProper(t: string)
    ensures forall c :: c in Parts(t) ==> c != [] && SlashFree(c) && |c| <= |t|
  {
    PartsAreLeading(t);
    JoinSplit(t);
    PartsFit(t);
  }

  lemma {:induction false} PartsFit(t: string)
    ensures forall c :: c in Parts(t) ==> |c| <= |t|
    decreases |t|
  {
    var n := Head(t);
    if 0 < n < |t| {
      PartsFit(t[n + 1..]);
    }
  }

  /** What is parsed, printed again, begins the path; it is all of it exactly when no component is empty. */
  lemma PrintParse(path: string)
    requires Parse(path).Parsed?
    ensures var p := Parse(path).path;
            && 0 <= p.drive <= 9 && Print(p) <= path
            && (Print(p) == path <==> |path| == 3 || forall c :: c in Split(path[3..]) ==> c != [])
  {
    hide Parts, Join, Split;
    JoinParts(path[3..]);
    assert Print(Parse(path).path) == path[..3] + Join(Parts(path[3..]));
  }

  lemma JoinParts(t: string)
    ensures Join(Parts(t)) <= t
    ensures Join(Parts(t)) == t <==> t == [] || forall c :: c in Split(t) ==> c != []
  {
    var cs := Split(t);
    var n := Leading(cs);
    PartsAreLeading(t);
    JoinSplit(t);
    JoinPrefix(cs, n);
    assert n == |cs| ==> cs[..n] == cs && forall c :: c in cs ==> c != [];
    assert n < |cs| ==> cs[n] in cs;
    assert t == [] ==> Head(t) == 0;
  }

  lemma {:induction false} JoinPrefix(cs: seq<string>, n: nat)
    requires cs != [] && n <= |cs|
    ensures Join(cs[..n]) <= Join(cs)
    ensures n < |cs| && Join(cs) != [] ==> |Join(cs[..n])| < |Join(cs)|
    decreases |cs|
  {
    if n > 0 && |cs| > 1 {
      assert cs[..n][1..] == cs[1..][..n - 1];
      JoinPrefix(cs[1..], n - 1);
    } else if n == |cs| {
      assert cs[..n] == cs;
    }
  }

  // ---------- the parser ----------

  class Part {
    /** The buffer of MAX_PATH characters that `part` points to */
    var part: array<char>
    var next: Part?

    constructor (text: array<char>)
      ensures part == text && next == null
    {
      part, next := text, null;
    }
  }

  class Root {
    var drive: int
    var first: Part?

    constructor (number: int)
      ensures drive == number && first == null
    {
      drive, first := number, null;
    }
  }

  /** The C string in `buffer` is `t`, and the terminator fits. */
  ghost predicate Contains(buffer: array<char>, t: string)
    reads buffer
  {
    buffer.Length == MAX_PATH && Strtok.Terminated(buffer[..], 0) && Strtok.TextAt(buffer[..], 0) == t
  }

  /** Following `next` from `first` visits `nodes` and ends; their buffers hold `ws`. */
  ghost predicate Holds(first: Part?, nodes: seq<Part>, ws: seq<string>)
    reads nodes, set n | n in nodes :: n.part
  {
    && |nodes| == |ws|
    && first == (if nodes == [] then null else nodes[0])
    && (forall i, j :: 0 <= i < j < |nodes| ==> nodes[i] != nodes[j])
    && forall i :: 0 <= i < |nodes| ==>
         Contains(nodes[i].part, ws[i]) && nodes[i].next == if i + 1 < |nodes| then nodes[i + 1] else null
  }

  /** The character at the pointer `at` into `path`, which a NUL ends. */
  function CharAt(path: string, at: nat): char {
    if at < |path| then path[at] else NUL
  }

  /** The component that starts at `at`. */
  function ComponentAt(path: string, at: nat): string
    requires at <= |path|
  {
    path[at..][..Head(path[at..])]
  }

  /** Behind the component at `at` and the slash after it. */
  function NextAt(path: string, at: nat): (next: nat)
    requires at <= |path|
    ensures at <= next <= |path|
  {
    var n := Head(path[at..]);
    if at + n < |path| then at + n + 1 else at + n
  }

  /** pathparser_get_path_part: copies a component into its buffer and steps over the slash behind it. */
  method GetPathPart(path: string, at: nat) returns (part: array?<char>, next: nat)
    requires NUL !in path && at <= |path| < at + MAX_PATH
    ensures var n := Head(path[at..]);
            && next == NextAt(path, at)
            && (part == null <==> n == 0)
            && (n > 0 ==> fresh(part) && Contains(part, ComponentAt(path, at)))
  {
    var buffer := new char[MAX_PATH](_ => NUL);
    var i := 0;
    next := at;
    while CharAt(path, next) != SLASH && CharAt(path, next) != NUL
      invariant next == at + i <= |path|
      invariant forall j :: 0 <= j < i ==> buffer[j] == path[at + j] != SLASH
      invariant forall j :: i <= j < MAX_PATH ==> buffer[j] == NUL
      decreases |path| - next
    {
      buffer[i] := CharAt(path, next);
      next := next + 1;
      i := i + 1;
    }
    assert forall j :: 0 <= j < i ==> path[at..][j] == buffer[j];
    HeadIs(path[at..], i);
    FilledBuffer(buffer, path[at..][..i]);
    if CharAt(path, next) == SLASH {
      next := next + 1;
    }
    part := if i == 0 then null else buffer;
  }

  lemma FilledBuffer(buffer: array<char>, t: string)
    requires |t| < buffer.Length == MAX_PATH && NUL !in t && buffer[|t|] == NUL
    requires forall j :: 0 <= j < |t| ==> buffer[j] == t[j]
    ensures Contains(buffer, t)
  {
    Strtok.EndIs(buffer[..], 0, |t|);
    assert buffer[..|t|] == t;
  }

  lemma {:induction false} HeadIs(t: string, n: nat)
    requires n <= |t| && (n < |t| ==> t[n] == SLASH) && forall i :: 0 <= i < n ==> t[i] != SLASH
    ensures Head(t) == n
  {
  }

  /** pathparser_parse_path_part: the next component, linked behind `last`. */
  method ParsePathPart(last: Part?, path: string, at: nat, ghost first: Part?, ghost nodes: seq<Part>,
                       ghost ws: seq<string>)
    returns (part: Part?, next: nat)
    requires NUL !in path && at <= |path| < at + MAX_PATH
    requires Holds(first, nodes, ws) && last == (if nodes == [] then null else nodes[|nodes| - 1])
    modifies if last != null then {last} else {}
    ensures at <= next <= |path|
    ensures var n := Head(path[at..]);
            if n == 0 then part == null && Holds(first, nodes, ws)
            else
              && part != null && fresh(part) && fresh(part.part)
              && next == NextAt(path, at)
              && Holds(if nodes == [] then part else first, nodes + [part], ws + [ComponentAt(path, at)])
  {
    hide Contains;
    var text;
    text, next := GetPathPart(path, at);
    if text == null {
      return null, next;
    }
    part := new Part(text);
    if last != null {
      last.next := part;
    }
  }

  lemma PartsStep(path: string, at: nat)
    requires at <= |path|
    ensures var t := path[at..];
            Parts(t) == if Head(t) == 0 then [] else [t[..Head(t)]] + Parts(path[NextAt(path, at)..])
  {
    FirstPart(path[at..]);
    NextSuffix(path, at);
    hide Parts, Head, NextAt;
  }

  lemma NextSuffix(path: string, at: nat)
    requires at <= |path|
    ensures var t := path[at..];
            path[NextAt(path, at)..] == t[if Head(t) == |t| then Head(t) else Head(t) + 1..]
  {
    hide Head;
  }

  lemma {:induction false} FirstPart(t: string)
    ensures var n := Head(t);
            Parts(t) == if n == 0 then [] else [t[..n]] + Parts(t[if n == |t| then n else n + 1..])
  {
    var n := Head(t);
    if n == |t| {
      assert t[..n] == t;
      assert Head([]) == 0 && Parts([]) == [];
    }
  }

  /** The parts `ws` lie before `at`, the others from there on. */
  ghost predicate Taken(path: string, start: nat, at: nat, ws: seq<string>) {
    start <= at <= |path| && Parts(path[start..]) == ws + Parts(path[at..])
  }

  lemma TakenNext(path: string, start: nat, at: nat, ws: seq<string>)
    requires Taken(path, start, at, ws)
    ensures if Head(path[at..]) == 0 then Parts(path[start..]) == ws
            else Taken(path, start, NextAt(path, at), ws + [ComponentAt(path, at)])
  {
    PartsStep(path, at);
    hide Parts, Head, NextAt;
    var rest := Parts(path[NextAt(path, at)..]);
    assert ws + ([ComponentAt(path, at)] + rest) == ws + [ComponentAt(path, at)] + rest;
  }

  /** The first part and then the loop of pathparser_parse over the others. */
  method ParseParts(path: string, start: nat) returns (first: Part?, ghost nodes: seq<Part>)
    requires NUL !in path && start <= |path| < start + MAX_PATH
    ensures Holds(first, nodes, Parts(path[start..]))
  {
    nodes := [];
    ghost var ws: seq<string> := [];
    HoldsNothing();
    assert Taken(path, start, start, ws);
    TakenNext(path, start, start, ws);
    hide Parts, Holds, Head, NextAt, Taken, ComponentAt;
    var at;
    first, at := ParsePathPart(null, path, start, null, nodes, ws);
    if first == null {
      return;
    }
    nodes, ws := nodes + [first], ws + [ComponentAt(path, start)];
    var part: Part? := first;
    while part != null
      invariant start <= at <= |path| && nodes != [] && Holds(first, nodes, ws)
      invariant if part != null then part == nodes[|nodes| - 1] && fresh(part) && Taken(path, start, at, ws)
                else Parts(path[start..]) == ws
      decreases |path| - at, part != null
    {
      TakenNext(path, start, at, ws);
      ghost var word := ComponentAt(path, at);
      part, at := ParsePathPart(part, path, at, first, nodes, ws);
      if part != null {
        nodes, ws := nodes + [part], ws + [word];
      }
    }
  }

  lemma HoldsNothing()
    ensures Holds(null, [], [])
  {
  }

  /** pathparser_parse, with memory for all parts */
  method ParsePath(path: string) returns (root: Root?, ghost nodes: seq<Part>)
    requires NUL !in path
    ensures match Parse(path)
            case BadPath => root == null
            case Parsed(p) => root != null && fresh(root) && root.drive == p.drive && Holds(root.first, nodes, p.parts)
  {
    root, nodes := null, [];
    if |path| > MAX_PATH {
      return;
    }
    if !ValidFormat(path) {
      return;
    }
    root := new Root(path[0] as int - '0' as int);
    hide Parts, Holds;
    var first;
    first, nodes := ParseParts(path, 3);
    root.first := first;
  }
}
