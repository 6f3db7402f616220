/** strtok of programs/stdlib/src/string.c, with its global position. */
module Strtok {
  import opened Tokens

  // ---------- C strings in a buffer ----------

  /** The index of the first NUL from `i` on, or `|s|`. */
  function EndOf(s: seq<char>, i: nat): (e: nat)
    requires i <= |s|
    ensures i <= e <= |s|
    decreases |s| - i
  {
    if i == |s| || s[i] == NUL then i else EndOf(s, i + 1)
  }

  predicate Terminated(s: seq<char>, i: nat) {
    i <= |s| && EndOf(s, i) < |s|
  }

  /** The C string that starts at index `i`. */
  function TextAt(s: seq<char>, i: nat): (t: string)
    requires i <= |s|
  {
    s[i..EndOf(s, i)]
  }

  lemma {:induction false} EndIs(s: seq<char>, i: nat, e: nat)
    requires i <= e < |s| && s[e] == NUL && forall j :: i <= j < e ==> s[j] != NUL
    ensures EndOf(s, i) == e
    decreases e - i
  {
    if i < e {
      EndIs(s, i + 1, e);
    }
  }

  lemma {:induction false} EndOfFacts(s: seq<char>, i: nat)
    requires Terminated(s, i)
    ensures s[EndOf(s, i)] == NUL && forall j :: i <= j < EndOf(s, i) ==> s[j] != NUL
    decreases |s| - i
  {
    if s[i] != NUL {
      EndOfFacts(s, i + 1);
    }
  }

  lemma EndOfLater(s: seq<char>, i: nat, k: nat)
    requires Terminated(s, i) && i <= k <= EndOf(s, i)
    ensures EndOf(s, k) == EndOf(s, i) && s[k] == NUL <==> k == EndOf(s, i)
    ensures TextAt(s, k) == TextAt(s, i)[k - i..]
  {
    EndOfFacts(s, i);
    EndIs(s, k, EndOf(s, i));
  }

  /** Ending a string at `q` splits it in two. */
  lemma SplitAt(s: seq<char>, p: nat, q: nat)
    requires Terminated(s, p) && p <= q < EndOf(s, p)
    ensures var r := s[q := NUL];
            && Terminated(r, p) && TextAt(r, p) == s[p..q]
            && Terminated(r, q + 1) && TextAt(r, q + 1) == s[q + 1..EndOf(s, p)]
  {
    var r := s[q := NUL];
    EndOfFacts(s, p);
    EndIs(r, p, q);
    EndIs(r, q + 1, EndOf(s, p));
  }

  // ---------- the tokenizer ----------

  /** The scan over all delimiters: the index of `c` among them, or their number. */
  method Delimiter(c: char, delimiters: string) returns (i: nat)
    ensures i <= |delimiters| && (i < |delimiters| <==> c in delimiters)
  {
    for k := 0 to |delimiters|
      invariant forall j :: 0 <= j < k ==> delimiters[j] != c
    {
      if c == delimiters[k] {
        return k;
      }
    }
    return |delimiters|;
  }

  lemma LeadStep(t: string, ds: string)
    ensures t != [] && t[0] in ds ==> Lead(t, ds) == 1 + Lead(t[1..], ds)
    ensures t == [] || t[0] !in ds ==> Lead(t, ds) == 0
    ensures t != [] && t[0] !in ds ==> Span(t, ds) == 1 + Span(t[1..], ds)
    ensures t == [] || t[0] in ds ==> Span(t, ds) == 0
  {
  }

  /** Everything from `start` to `p` is delimiters. */
  ghost predicate Passed(s: seq<char>, start: nat, p: nat, ds: string)
    requires Terminated(s, start)
  {
    start <= p <= EndOf(s, start) && Lead(TextAt(s, start), ds) == p - start + Lead(TextAt(s, p), ds)
  }

  lemma PassedStep(s: seq<char>, start: nat, p: nat, ds: string)
    requires Terminated(s, start) && Passed(s, start, p, ds) && NUL !in ds
    ensures start <= p <= EndOf(s, start) < |s|
    ensures s[p] in ds ==> p < EndOf(s, start) && Passed(s, start, p + 1, ds)
    ensures s[p] !in ds ==> TextAt(s, p) == Skipped(TextAt(s, start), ds)
  {
    EndOfLater(s, start, p);
    LeadStep(TextAt(s, p), ds);
    if s[p] != NUL {
      EndOfLater(s, start, p + 1);
    }
  }

  /** Skips delimiters from `start` on. */
  method SkipDelimiters(buffer: array<char>, start: nat, delimiters: string) returns (p: nat)
    requires Terminated(buffer[..], start) && NUL !in delimiters
    ensures start <= p <= EndOf(buffer[..], start)
    ensures TextAt(buffer[..], p) == Skipped(TextAt(buffer[..], start), delimiters)
  {
    ghost var s := buffer[..];
    p := start;
    assert Passed(s, start, start, delimiters);
    hide Passed, EndOf, TextAt, Skipped;
    while true
      invariant Passed(s, start, p, delimiters)
      decreases EndOf(s, start) - p
    {
      PassedStep(s, start, p, delimiters);
      var i := Delimiter(buffer[p], delimiters);
      if i == |delimiters| {
        break;
      }
      p := p + 1;
    }
  }

  /** The word at `p` reaches to `k` at least. */
  ghost predicate Reached(s: seq<char>, p: nat, k: nat, ds: string)
    requires Terminated(s, p)
  {
    p <= k <= EndOf(s, p) && Span(TextAt(s, p), ds) == k - p + Span(TextAt(s, k), ds)
  }

  lemma ReachedStep(s: seq<char>, p: nat, k: nat, ds: string)
    requires Terminated(s, p) && Reached(s, p, k, ds)
    ensures k <= EndOf(s, p) && (s[k] == NUL <==> k == EndOf(s, p))
    ensures s[k] != NUL && s[k] !in ds ==> Reached(s, p, k + 1, ds)
    ensures s[k] == NUL || s[k] in ds ==> Span(TextAt(s, p), ds) == k - p
  {
    EndOfLater(s, p, k);
    LeadStep(TextAt(s, k), ds);
    if s[k] != NUL {
      EndOfLater(s, p, k + 1);
    }
  }

  /** What the buffer holds after the word at `p`, which ends at `q` before the text does, is split off. */
  lemma EndedInside(s: seq<char>, p: nat, q: nat)
    requires Terminated(s, p) && p <= q < EndOf(s, p)
    ensures var u, r := TextAt(s, p), s[q := NUL];
            && q < p + |u|
            && Terminated(r, p) && TextAt(r, p) == u[..q - p]
            && Terminated(r, q + 1) && TextAt(r, q + 1) == After(u, q - p)
  {
    SplitAt(s, p, q);
  }

  /** The same for a word that ends with the text. */
  lemma EndedLast(s: seq<char>, p: nat)
    requires Terminated(s, p)
    ensures var u, q := TextAt(s, p), EndOf(s, p);
            q == p + |u| && Terminated(s, q) && TextAt(s, p) == u[..q - p] && TextAt(s, q) == After(u, q - p)
  {
    EndOfLater(s, p, EndOf(s, p));
  }

  /** Goes to the end of the word at `p`, ends it with a NUL and steps over that. */
  method EndWord(buffer: array<char>, p: nat, delimiters: string) returns (at: nat)
    requires Terminated(buffer[..], p) && Reached(buffer[..], p, p, delimiters) && buffer[p] != NUL
    requires buffer[p] !in delimiters
    modifies buffer
    ensures p < at && Terminated(buffer[..], p) && Terminated(buffer[..], at)
    ensures var u := old(TextAt(buffer[..], p));
            var n := Span(u, delimiters);
            && TextAt(buffer[..], p) == u[..n] && TextAt(buffer[..], at) == After(u, n)
            && buffer[..] == if n == |u| then old(buffer[..]) else old(buffer[..])[p + n := NUL]
  {
    ghost var s := buffer[..];
    hide Reached, Span, After, EndOf, TextAt;
    at := p;
    while buffer[at] != NUL
      invariant p <= at < |s| == buffer.Length && buffer[..] == s && (at == p ==> buffer[at] !in delimiters)
      invariant Reached(s, p, at, delimiters)
      decreases |s| - at
    {
      ReachedStep(s, p, at, delimiters);
      var i := Delimiter(buffer[at], delimiters);
      if i < |delimiters| {
        EndedInside(s, p, at);
        at := Cut(buffer, at);
        return;
      }
      at := at + 1;
    }
    ReachedStep(s, p, at, delimiters);
    EndedLast(s, p);
  }

  /** *sp = 0; sp++ */
  method Cut(buffer: array<char>, at: nat) returns (next: nat)
    requires at < buffer.Length
    modifies buffer
    ensures next == at + 1 && buffer[..] == old(buffer[..])[at := NUL]
  {
    buffer[at] := NUL;
    next := at + 1;
  }

  class Tokenizer {
    /** `sp`: the buffer it points into, or null, and the index it points to */
    var text: array?<char>
    var at: nat

    ghost predicate Valid()
      reads this, text
    {
      text != null ==> Terminated(text[..], at)
    }

    /** The text that a continued split will look at. */
    ghost function Pending(): string
      requires Valid()
      reads this, text
    {
      if text == null then [] else TextAt(text[..], at)
    }

    constructor ()
      ensures Valid() && text == null
    {
      text, at := null, 0;
    }

    /**
     strtok: the first word of the text still pending or, with none pending, of `str`. A new `str`
     is ignored while a text is pending.
     */
    method Strtok(str: array?<char>, delimiters: string) returns (buffer: array?<char>, start: nat)
      requires Valid() && NUL !in delimiters
      requires str != null ==> Terminated(str[..], 0)
      modifies this, if text != null then {text} else if str != null then {str} else {}
      ensures Valid()
      ensures var was := old(if text == null && str != null then TextAt(str[..], 0) else Pending());
              var ws := Words(was, delimiters);
              if ws == [] then buffer == null && text == null
              else
                && buffer == old(if text != null then text else str) && text == buffer && start < at
                && Terminated(buffer[..], start) && TextAt(buffer[..], start) == ws[0]
                && Words(Pending(), delimiters) == ws[1..]
                && start <= buffer.Length && buffer[..start] == old(if text != null then text[..] else str[..])[..start]
    {
      if str == null && text == null {
        return null, 0;
      }
      if str != null && text == null {
        text, at := str, 0;
      }
      hide EndOf, TextAt, Words;
      buffer := text;
      start := SplitOff(buffer, delimiters);
      if text == null {
        buffer := null;
      }
    }

    /** The part of strtok that splits a word off the pending text in `buffer`. */
    method SplitOff(buffer: array<char>, delimiters: string) returns (start: nat)
      requires Valid() && text == buffer && NUL !in delimiters
      modifies this, buffer
      ensures Valid()
      ensures var ws := Words(old(Pending()), delimiters);
              if ws == [] then text == null && buffer[..] == old(buffer[..])
              else
                && text == buffer && start < at && buffer[..start] == old(buffer[..])[..start]
                && Terminated(buffer[..], start) && TextAt(buffer[..], start) == ws[0]
                && Words(Pending(), delimiters) == ws[1..]
    {
      hide EndOf, TextAt, Words, Span, After, Skipped;
      start := SkipDelimiters(buffer, at, delimiters);
      WordsFrom(buffer[..], at, start, delimiters);
      at := start;
      if buffer[at] == NUL {
        text := null;
        return;
      }
      at := EndWord(buffer, start, delimiters);
    }
  }

  /** The words of the text at `i`, whose first word begins at `p`. */
  lemma WordsFrom(s: seq<char>, i: nat, p: nat, ds: string)
    requires Terminated(s, i) && i <= p <= EndOf(s, i) && TextAt(s, p) == Skipped(TextAt(s, i), ds)
    ensures Terminated(s, p) && Reached(s, p, p, ds)
    ensures var ws, u := Words(TextAt(s, i), ds), TextAt(s, p);
            var n := Span(u, ds);
            if s[p] == NUL then ws == [] else s[p] !in ds && ws == [u[..n]] + Words(After(u, n), ds)
  {
    EndOfLater(s, i, p);
    EndOfLater(s, p, p);
    SkippedStartsWord(TextAt(s, i), ds);
  }
}
