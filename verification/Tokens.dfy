/**
 What splitting a text at delimiters means, and the tokenizer with a global position that does it
 (strtok of programs/stdlib/src/string.c).
 */
module Tokens {

  const NUL: char := '\0'

  // ---------- the words of a text ----------

  /** The number of delimiters that `t` starts with. */
  function Lead(t: string, ds: string): (n: nat)
    ensures n <= |t|
  {
    if t != [] && t[0] in ds then 1 + Lead(t[1..], ds) else 0
  }

  /** The number of other characters that `t` starts with. */
  function Span(t: string, ds: string): (n: nat)
    ensures n <= |t|
  {
    if t != [] && t[0] !in ds then 1 + Span(t[1..], ds) else 0
  }

  /** `t` from its first word on, `[]` if it has none. */
  function Skipped(t: string, ds: string): (u: string) {
    t[Lead(t, ds)..]
  }

  /** What is left of `u` after its first `n` characters and the delimiter behind them. */
  function After(u: string, n: nat): (v: string)
    requires n <= |u|
  {
    if n == |u| then [] else u[n + 1..]
  }

  function Words(t: string, ds: string): (ws: seq<string>)
    decreases |t|
  {
    var u := Skipped(t, ds);
    if u == [] then [] else
      SkippedStartsWord(t, ds);
      [u[..Span(u, ds)]] + Words(After(u, Span(u, ds)), ds)
  }

  lemma SkippedStartsWord(t: string, ds: string)
    ensures var u := Skipped(t, ds); u != [] ==> u[0] !in ds && Span(u, ds) > 0
  {
    if t != [] && t[0] in ds {
      SkippedStartsWord(t[1..], ds);
      assert Skipped(t, ds) == Skipped(t[1..], ds);
    }
  }

  // ---------- what makes them the words ----------

  predicate Gap(g: string, ds: string) {
    forall i :: 0 <= i < |g| ==> g[i] in ds
  }

  predicate Word(w: string, ds: string) {
    w != [] && forall i :: 0 <= i < |w| ==> w[i] !in ds
  }

  /** One gap before each word and one at the end; only the first and the last may be empty. */
  predicate Fit(gaps: seq<string>, ws: seq<string>, ds: string) {
    && |gaps| == |ws| + 1
    && (forall i :: 0 <= i < |gaps| ==> Gap(gaps[i], ds))
    && (forall i :: 0 < i < |ws| ==> gaps[i] != [])
    && (forall i :: 0 <= i < |ws| ==> Word(ws[i], ds))
  }

  function Woven(gaps: seq<string>, ws: seq<string>): (t: string)
    requires |gaps| == |ws| + 1
  {
    if ws == [] then gaps[0] else gaps[0] + ws[0] + Woven(gaps[1..], ws[1..])
  }

  /** The words of a text are the only ones that it can be woven from. */
  lemma WordsExactlyWhen(t: string, ds: string, ws: seq<string>)
    ensures Words(t, ds) == ws <==> exists gaps :: Fit(gaps, ws, ds) && Woven(gaps, ws) == t
  {
    if Words(t, ds) == ws {
      var _ := GapsFit(t, ds);
    }
    if gaps :| Fit(gaps, ws, ds) && Woven(gaps, ws) == t {
      WovenWords(gaps, ws, ds);
    }
  }

  lemma {:induction false} LeadOfGap(g: string, u: string, ds: string)
    requires Gap(g, ds) && (u == [] || u[0] !in ds)
    ensures Lead(g + u, ds) == |g| && Skipped(g + u, ds) == u
  {
    var t := g + u;
    if g != [] {
      assert t[0] == g[0] && t[1..] == g[1..] + u;
      LeadOfGap(g[1..], u, ds);
    } else {
      assert t == u;
    }
    assert t[|g|..] == u;
  }

  lemma {:induction false} SpanOfWord(w: string, v: string, ds: string)
    requires (forall i :: 0 <= i < |w| ==> w[i] !in ds) && (v == [] || v[0] in ds)
    ensures Span(w + v, ds) == |w|
  {
    var u := w + v;
    if w != [] {
      assert u[0] == w[0] && u[1..] == w[1..] + v;
      SpanOfWord(w[1..], v, ds);
    } else {
      assert u == v;
    }
  }

  lemma FirstWord(g: string, w: string, v: string, ds: string)
    requires Gap(g, ds) && Word(w, ds) && (v == [] || v[0] in ds)
    ensures Words(g + w + v, ds) == [w] + Words(if v == [] then [] else v[1..], ds)
  {
    assert g + w + v == g + (w + v);
    LeadOfGap(g, w + v, ds);
    SpanOfWord(w, v, ds);
    assert (w + v)[..|w|] == w;
    assert After(w + v, |w|) == if v == [] then [] else v[1..];
  }

  lemma {:induction false} WovenWords(gaps: seq<string>, ws: seq<string>, ds: string)
    requires Fit(gaps, ws, ds)
    ensures Words(Woven(gaps, ws), ds) == ws
    decreases |ws|
  {
    if ws == [] {
      assert Woven(gaps, ws) == gaps[0] + [];
      LeadOfGap(gaps[0], [], ds);
    } else {
      var v := Woven(gaps[1..], ws[1..]);
      WovenStart(gaps[1..], ws[1..]);
      WovenOfNothing(gaps[1..], ws[1..], ds);
      FirstWord(gaps[0], ws[0], v, ds);
      if v != [] {
        assert gaps[1] != [];
        FitRest(gaps, ws, ds);
        WovenWords([gaps[1][1..]] + gaps[2..], ws[1..], ds);
        WovenRest(gaps[1..], ws[1..]);
        assert gaps[1..][1..] == gaps[2..];
      }
    }
  }

  lemma WovenStart(gaps: seq<string>, ws: seq<string>)
    requires |gaps| == |ws| + 1
    ensures gaps[0] != [] ==> Woven(gaps, ws) != [] && Woven(gaps, ws)[0] == gaps[0][0]
    ensures gaps[0] == [] && ws == [] ==> Woven(gaps, ws) == []
  {
  }

  lemma WovenOfNothing(gaps: seq<string>, ws: seq<string>, ds: string)
    requires |gaps| == |ws| + 1 && forall i :: 0 <= i < |ws| ==> Word(ws[i], ds)
    ensures ws != [] ==> Woven(gaps, ws) != []
  {
    assert ws != [] ==> Word(ws[0], ds) && |Woven(gaps, ws)| >= |ws[0]|;
  }

  lemma FitRest(gaps: seq<string>, ws: seq<string>, ds: string)
    requires Fit(gaps, ws, ds) && ws != [] && gaps[1] != []
    ensures Fit([gaps[1][1..]] + gaps[2..], ws[1..], ds)
  {
    var rest := [gaps[1][1..]] + gaps[2..];
    assert Gap(gaps[1], ds);
    forall i | 0 <= i < |rest|
      ensures Gap(rest[i], ds)
    {
      assert rest[i] == if i == 0 then gaps[1][1..] else gaps[i + 1];
    }
  }

  lemma WovenRest(gaps: seq<string>, ws: seq<string>)
    requires |gaps| == |ws| + 1 && gaps[0] != []
    ensures Woven([gaps[0][1..]] + gaps[1..], ws) == Woven(gaps, ws)[1..]
  {
    var rest := [gaps[0][1..]] + gaps[1..];
    if ws != [] {
      assert rest[1..] == gaps[1..];
    }
  }

  lemma {:induction false} GapsFit(t: string, ds: string) returns (gaps: seq<string>)
    ensures Fit(gaps, Words(t, ds), ds) && Woven(gaps, Words(t, ds)) == t
    decreases |t|
  {
    LeadIsGap(t, ds);
    if Skipped(t, ds) == [] {
      gaps := [t];
    } else {
      var g, w, d, v := Parts(t, ds);
      var after := GapsFit(v, ds);
      GapsExtended(g, d, after, w, Words(v, ds), ds);
      gaps := [g, d + after[0]] + after[1..];
    }
  }

  lemma Parts(t: string, ds: string) returns (g: string, w: string, d: string, v: string)
    requires Skipped(t, ds) != []
    ensures t == g + w + (d + v) && Gap(g, ds) && Word(w, ds) && Gap(d, ds)
    ensures d == [] ==> v == []
    ensures Words(t, ds) == [w] + Words(v, ds) && |v| < |t|
  {
    var u := Skipped(t, ds);
    LeadIsGap(t, ds);
    SkippedStartsWord(t, ds);
    SpanIsWord(u, ds);
    var n := Span(u, ds);
    g, w, v := t[..Lead(t, ds)], u[..n], After(u, n);
    d := if n == |u| then [] else [u[n]];
    assert t == g + u;
    assert u == w + (d + v);
  }

  lemma {:induction false} GapsExtended(g: string, d: string, after: seq<string>, w: string, ws: seq<string>,
                                        ds: string)
    requires Gap(g, ds) && Gap(d, ds) && Fit(after, ws, ds) && Word(w, ds) && (d == [] ==> ws == [])
    ensures Fit([g, d + after[0]] + after[1..], [w] + ws, ds)
    ensures Woven([g, d + after[0]] + after[1..], [w] + ws) == g + w + (d + Woven(after, ws))
  {
    hide Gap, Word, Woven;
    var gaps, us := [g, d + after[0]] + after[1..], [w] + ws;
    GapsJoined(d, after[0], ds);
    forall i | 0 <= i < |gaps|
      ensures Gap(gaps[i], ds)
    {
      assert i > 1 ==> gaps[i] == after[i - 1];
    }
    forall i | 0 < i < |us|
      ensures gaps[i] != []
    {
      assert i > 1 ==> gaps[i] == after[i - 1];
    }
    forall i | 0 <= i < |us|
      ensures Word(us[i], ds)
    {
      assert i > 0 ==> us[i] == ws[i - 1];
    }
    WovenExtended(g, d, after, w, ws);
  }

  lemma GapsJoined(d: string, g: string, ds: string)
    requires Gap(d, ds) && Gap(g, ds)
    ensures Gap(d + g, ds)
  {
  }

  lemma {:induction false} WovenExtended(g: string, d: string, after: seq<string>, w: string, ws: seq<string>)
    requires |after| == |ws| + 1
    ensures Woven([g, d + after[0]] + after[1..], [w] + ws) == g + w + (d + Woven(after, ws))
  {
    var gaps, us, tail := [g, d + after[0]] + after[1..], [w] + ws, [d + after[0]] + after[1..];
    assert gaps[1..] == tail && us[1..] == ws && tail[1..] == after[1..];
    assert Woven(gaps, us) == g + w + Woven(tail, ws);
    var v := if ws == [] then [] else ws[0] + Woven(after[1..], ws[1..]);
    assert Woven(after, ws) == after[0] + v;
    assert Woven(tail, ws) == d + after[0] + v;
    assert d + after[0] + v == d + (after[0] + v);
  }

  lemma LeadIsGap(t: string, ds: string)
    ensures Gap(t[..Lead(t, ds)], ds)
  {
    if t != [] && t[0] in ds {
      LeadIsGap(t[1..], ds);
      assert t[..Lead(t, ds)] == [t[0]] + t[1..][..Lead(t[1..], ds)];
    }
  }

  lemma SpanIsWord(u: string, ds: string)
    ensures forall i :: 0 <= i < Span(u, ds) ==> u[i] !in ds
    ensures Span(u, ds) < |u| ==> u[Span(u, ds)] in ds
  {
    if u != [] && u[0] !in ds {
      SpanIsWord(u[1..], ds);
      assert forall i :: 0 < i < |u| ==> u[i] == u[1..][i - 1];
    }
  }
}
