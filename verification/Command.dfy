/** Splitting a command line into a list of arguments (programs/stdlib/src/plumos.c). */
module Command {
  import opened Tokens
  import Strtok

  const COMMAND_SIZE := 1025
  const ARGUMENT_SIZE := 512
  const SPACES := " "

  /** What strncpy keeps of a string in a buffer of `count` characters. */
  function Cut(t: string, count: nat): (r: string)
    requires count > 0
    ensures r <= t && |r| == if |t| < count then |t| else count - 1
  {
    if |t| < count then t else t[..count - 1]
  }

  class Argument {
    var argument: string
    var next: Argument?

    constructor (token: string)
      ensures argument == Cut(token, ARGUMENT_SIZE) && next == null
    {
      argument, next := Cut(token, ARGUMENT_SIZE), null;
    }
  }

  /** Following `next` from `root` visits `nodes` and ends; they hold the first of the words `ws`, each cut to fit. */
  ghost predicate Holds(root: Argument?, nodes: seq<Argument>, ws: seq<string>)
    reads nodes
  {
    && |nodes| <= |ws|
    && root == (if nodes == [] then null else nodes[0])
    && (forall i, j :: 0 <= i < j < |nodes| ==> nodes[i] != nodes[j])
    && forall i :: 0 <= i < |nodes| ==>
         && nodes[i].argument == Cut(ws[i], ARGUMENT_SIZE)
         && nodes[i].next == if i + 1 < |nodes| then nodes[i + 1] else null
  }

  lemma HoldsShort(nodes: seq<Argument>, ws: seq<string>)
    ensures Holds(null, [], ws)
    ensures |nodes| == 1 && ws != [] && nodes[0].argument == Cut(ws[0], ARGUMENT_SIZE) && nodes[0].next == null ==>
              Holds(nodes[0], nodes, ws)
  {
  }

  method Append(root: Argument, current: Argument, node: Argument, ghost nodes: seq<Argument>, ghost ws: seq<string>)
    requires nodes != [] && Holds(root, nodes, ws) && current == nodes[|nodes| - 1] && node !in nodes
    requires |nodes| < |ws| && node.argument == Cut(ws[|nodes|], ARGUMENT_SIZE) && node.next == null
    modifies current`next
    ensures Holds(root, nodes + [node], ws)
  {
    current.next := node;
  }

  /** The buffer `scommand` with the command in it. */
  method Buffer(command: string) returns (scommand: array<char>)
    requires NUL !in command
    ensures fresh(scommand) && Strtok.Terminated(scommand[..], 0)
    ensures Strtok.TextAt(scommand[..], 0) == Cut(command, COMMAND_SIZE)
  {
    var text := Cut(command, COMMAND_SIZE);
    scommand := new char[COMMAND_SIZE](i => if 0 <= i < |text| then text[i] else NUL);
    Strtok.EndIs(scommand[..], 0, |text|);
    assert scommand[..|text|] == text;
  }

  /** Word number `k` of `ws` has been split off at `token`, and those after it are pending. */
  ghost predicate Due(strtok: Strtok.Tokenizer, buffer: array<char>, token: nat, ws: seq<string>, k: nat)
    reads strtok, strtok.text, buffer
  {
    && strtok.Valid() && strtok.text == buffer && k < |ws| && Strtok.Terminated(buffer[..], token)
    && Strtok.TextAt(buffer[..], token) == ws[k] && Words(strtok.Pending(), SPACES) == ws[k + 1..]
  }

  lemma DueMeans(strtok: Strtok.Tokenizer, buffer: array<char>, token: nat, ws: seq<string>, k: nat)
    requires Due(strtok, buffer, token, ws, k)
    ensures strtok.Valid() && strtok.text == buffer && k < |ws| && Words(strtok.Pending(), SPACES) == ws[k + 1..]
  {
  }

  /** strtok(NULL, " ") with the words of `ws` from number `k` on pending */
  method Continue(strtok: Strtok.Tokenizer, ghost ws: seq<string>, ghost k: nat)
    returns (buffer: array?<char>, token: nat)
    requires strtok.Valid() && strtok.text != null && k <= |ws| && Words(strtok.Pending(), SPACES) == ws[k..]
    modifies strtok, strtok.text
    ensures strtok.Valid() && strtok.text == buffer
    ensures if k == |ws| then buffer == null else buffer == old(strtok.text) && Due(strtok, buffer, token, ws, k)
  {
    hide Words, Strtok.TextAt, Strtok.Terminated;
    buffer, token := strtok.Strtok(null, SPACES);
  }

  method ArgumentFor(strtok: Strtok.Tokenizer, buffer: array<char>, token: nat, ghost ws: seq<string>, ghost k: nat)
    returns (node: Argument)
    requires Due(strtok, buffer, token, ws, k)
    ensures fresh(node) && node.argument == Cut(ws[k], ARGUMENT_SIZE) && node.next == null
  {
    node := new Argument(Strtok.TextAt(buffer[..], token));
  }

  /** The loop over the arguments behind the command's name. */
  method Collect(strtok: Strtok.Tokenizer, root: Argument, room: nat, ghost ws: seq<string>)
    returns (ghost nodes: seq<Argument>)
    requires strtok.Valid() && strtok.text != null && ws != [] && Words(strtok.Pending(), SPACES) == ws[1..]
    requires root.argument == Cut(ws[0], ARGUMENT_SIZE) && root.next == null && room > 0
    modifies strtok, strtok.text, root`next
    ensures strtok.Valid() && Holds(root, nodes, ws) && |nodes| == (if room < |ws| then room else |ws|)
    ensures forall n :: n in nodes ==> n == root || fresh(n)
    ensures if |ws| <= room then strtok.text == null
            else strtok.text != null && Words(strtok.Pending(), SPACES) == ws[room + 1..]
  {
    hide Words, Cut, Holds, Due;
    nodes := [root];
    HoldsShort(nodes, ws);
    var current, left := root, room - 1;
    var buffer, token := Continue(strtok, ws, 1);
    while buffer != null
      invariant 0 < |nodes| <= |ws| && Holds(root, nodes, ws) && current == nodes[|nodes| - 1] && left == room - |nodes|
      invariant forall n :: n in nodes ==> n == root || fresh(n)
      invariant current == root || fresh(current)
      invariant buffer == null || buffer == old(strtok.text)
      invariant if buffer == null then |nodes| == |ws| && strtok.Valid() && strtok.text == null
                else Due(strtok, buffer, token, ws, |nodes|)
      decreases |ws| - |nodes|
    {
      DueMeans(strtok, buffer, token, ws, |nodes|);
      if left == 0 {
        break;
      }
      left := left - 1;
      var node := ArgumentFor(strtok, buffer, token, ws, |nodes|);
      Append(root, current, node, nodes, ws);
      current := node;
      nodes := nodes + [node];
      buffer, token := Continue(strtok, ws, |nodes|);
    }
  }

  /** The words still pending in strtok, if a text is. */
  datatype Left = Nothing | Pending(words: seq<string>)

  ghost function LeftIn(strtok: Strtok.Tokenizer): Left
    requires strtok.Valid()
    reads strtok, strtok.text
  {
    if strtok.text == null then Nothing else Pending(Words(strtok.Pending(), SPACES))
  }

  /** The words that the next command is given. */
  function Coming(left: Left, command: string): seq<string> {
    match left
    case Nothing => Words(Cut(command, COMMAND_SIZE), SPACES)
    case Pending(words) => words
  }

  /** What is pending after a command that was given the words `ws` and memory for `room` of them. */
  function Rest(ws: seq<string>, room: nat): Left {
    if |ws| <= room then Nothing else Pending(ws[room + 1..])
  }

  /** Copying the command and strtok(scommand, " ") */
  method Begin(strtok: Strtok.Tokenizer, command: string) returns (buffer: array?<char>, token: nat)
    requires strtok.Valid() && NUL !in command
    modifies strtok, if strtok.text != null then {strtok.text} else {}
    ensures strtok.Valid() && strtok.text == buffer && (buffer == null || buffer == old(strtok.text) || fresh(buffer))
    ensures var ws := Coming(old(LeftIn(strtok)), command);
            if ws == [] then buffer == null else buffer != null && Due(strtok, buffer, token, ws, 0)
  {
    var scommand := Buffer(command);
    hide Words, Strtok.TextAt, Strtok.Terminated, Cut;
    buffer, token := strtok.Strtok(scommand, SPACES);
  }

  /**
   plumos_parse_command, with memory for `room` arguments. The arguments are the words of the text
   still pending in strtok or, with none pending, of the command.
   */
  method ParseCommand(strtok: Strtok.Tokenizer, command: string, max: int, room: nat)
    returns (root: Argument?, ghost nodes: seq<Argument>)
    requires strtok.Valid() && NUL !in command
    modifies strtok, if strtok.text != null then {strtok.text} else {}
    ensures strtok.Valid()
    ensures max >= COMMAND_SIZE ==> root == null && nodes == [] && LeftIn(strtok) == old(LeftIn(strtok))
    ensures max < COMMAND_SIZE ==>
              var ws := Coming(old(LeftIn(strtok)), command);
              && (forall n :: n in nodes ==> fresh(n)) && Holds(root, nodes, ws)
              && |nodes| == (if room < |ws| then room else |ws|)
              && LeftIn(strtok) == Rest(ws, room)
  {
    root, nodes := null, [];
    if max >= COMMAND_SIZE {
      return;
    }
    hide Words, Holds, Due, Coming, Cut, LeftIn;
    ghost var ws := Coming(LeftIn(strtok), command);
    var buffer, token := Begin(strtok, command);
    root, nodes := Arguments(strtok, buffer, token, room, ws);
  }

  /** The list for the words `ws`, the first of which has been split off. */
  method Arguments(strtok: Strtok.Tokenizer, buffer: array?<char>, token: nat, room: nat, ghost ws: seq<string>)
    returns (root: Argument?, ghost nodes: seq<Argument>)
    requires strtok.Valid() && strtok.text == buffer
    requires if ws == [] then buffer == null else buffer != null && Due(strtok, buffer, token, ws, 0)
    modifies strtok, if strtok.text != null then {strtok.text} else {}
    ensures strtok.Valid() && (forall n :: n in nodes ==> fresh(n)) && Holds(root, nodes, ws)
    ensures |nodes| == (if room < |ws| then room else |ws|) && LeftIn(strtok) == Rest(ws, room)
  {
    root, nodes := null, [];
    HoldsShort(nodes, ws);
    if buffer == null {
      return;
    }
    hide Words, Holds, Due, Cut;
    DueMeans(strtok, buffer, token, ws, 0);
    if room == 0 {
      return;
    }
    root := ArgumentFor(strtok, buffer, token, ws, 0);
    nodes := Collect(strtok, root, room, ws);
  }

  // ---------- a session of commands ----------

  datatype Entry = Entry(command: string, room: nat)

  /** The arguments of each command in turn, first to last. */
  function Session(left: Left, entries: seq<Entry>): (results: seq<seq<string>>)
    ensures |results| == |entries|
    decreases |entries|
  {
    if entries == [] then [] else
      var ws := Coming(left, entries[0].command);
      var n := if entries[0].room < |ws| then entries[0].room else |ws|;
      [ws[..n]] + Session(Rest(ws, entries[0].room), entries[1..])
  }

  function OwnWords(e: Entry): seq<string> {
    Words(Cut(e.command, COMMAND_SIZE), SPACES)
  }

  /** In any session every command gets precisely its own words if and only if memory never runs out. */
  lemma {:induction false} SessionExactlyWhen(entries: seq<Entry>)
    ensures (forall k :: 0 <= k < |entries| ==> Session(Nothing, entries)[k] == OwnWords(entries[k]))
       <==> (forall k :: 0 <= k < |entries| ==> |OwnWords(entries[k])| <= entries[k].room)
  {
    hide Words, Cut;
    if entries != [] {
      var own, results, rest := OwnWords(entries[0]), Session(Nothing, entries), entries[1..];
      if |own| <= entries[0].room {
        assert own[..|own|] == own;
        SessionExactlyWhen(rest);
        assert forall k :: 0 < k < |entries| ==>
          results[k] == Session(Nothing, rest)[k - 1] && entries[k] == rest[k - 1];
        assert forall k :: 0 <= k < |rest| ==> Session(Nothing, rest)[k] == results[k + 1] && rest[k] == entries[k + 1];
      } else {
        assert |results[0]| < |own|;
      }
    }
  }

  /** After memory ran out, the next command is given the words that are left of that one instead of its own. */
  lemma PendingWordsComeFirst(e: Entry, f: Entry)
    requires e.room < |OwnWords(e)| && |OwnWords(e)| <= e.room + 1 + f.room
    ensures Session(Nothing, [e, f]) == [OwnWords(e)[..e.room], OwnWords(e)[e.room + 1..]]
  {
    var own := OwnWords(e);
    var left := Rest(own, e.room);
    assert Session(left, [f]) == [own[e.room + 1..]] by {
      assert [f][1..] == [];
      assert left.words[..|left.words|] == left.words;
    }
    assert [e, f][1..] == [f];
  }
}
