/** When the order of the captures shows in a formatted template: captured values are themselves text
    with placeholders in it, and a placeholder that a value brings in is replaced or not depending on
    whose turn is still to come. */
module FormatOrder {
  import opened Base
  import opened Routing

  predicate Mentions(ts: seq<Token>, name: string) {
    exists k :: 0 <= k < |ts| && ts[k] == Hole(name)
  }

  /** `values` reads every captured value as inert text with placeholders. */
  predicate Tokenized(captures: map<string, string>, values: map<string, seq<Token>>) {
    && captures.Keys == values.Keys
    && forall n :: n in values ==>
         IsIdent(n) && WellFormed(values[n]) && captures[n] == Render(values[n])
  }

  /** A value the template uses brings in the placeholder of another capture. */
  predicate BringsIn(ts: seq<Token>, values: map<string, seq<Token>>, a: string, b: string) {
    a in values && b in values && a != b && Mentions(ts, a) && Mentions(values[a], b)
  }

  predicate Harmless(ts: seq<Token>, values: map<string, seq<Token>>) {
    forall a, b :: a in values && b in values ==> !BringsIn(ts, values, a, b)
  }

  /** A placeholder that is brought in does not come back in its own value. */
  predicate EchoFree(ts: seq<Token>, values: map<string, seq<Token>>) {
    forall a, b :: a in values && b in values && BringsIn(ts, values, a, b) ==> !Mentions(values[b], b)
  }

  // ---------------------------------------------------------------- substitution on tokens

  function SpliceOne(t: Token, values: map<string, seq<Token>>, names: set<string>): seq<Token> {
    if t.Hole? && t.name in values && t.name in names then values[t.name] else [t]
  }

  function Splice(ts: seq<Token>, values: map<string, seq<Token>>, names: set<string>): seq<Token> {
    if ts == [] then [] else SpliceOne(ts[0], values, names) + Splice(ts[1..], values, names)
  }

  function SpliceInOrder(ts: seq<Token>, values: map<string, seq<Token>>, order: seq<string>): seq<Token> {
    if order == [] then ts
    else Splice(SpliceInOrder(ts, values, order[..|order| - 1]), values, {order[|order| - 1]})
  }

  lemma {:induction false} RenderAppend(a: seq<Token>, b: seq<Token>)
    ensures Render(a + b) == Render(a) + Render(b)
  {
    if a == [] {
      assert a + b == b;
    } else {
      var t, rest := a[0], a[1..];
      RenderAppend(rest, b);
      assert a == [t] + rest;
      RenderCons(t, rest);
      RenderCons(t, rest + b);
      assert a + b == [t] + (rest + b);
      Associates(Text(t), Render(rest), Render(b));
    }
  }

  lemma Associates(x: string, y: string, z: string)
    ensures x + (y + z) == (x + y) + z
  {
  }

  lemma RenderCons(t: Token, ts: seq<Token>)
    ensures Render([t] + ts) == Text(t) + Render(ts)
  {
    assert ([t] + ts)[1..] == ts;
  }

  lemma RenderOne(t: Token)
    ensures Render([t]) == Text(t)
  {
    assert [t][1..] == [];
  }

  /** Spliced in or put in as text, a value renders the same. */
  lemma {:induction false} SpliceRenders(ts: seq<Token>, captures: map<string, string>, values: map<string, seq<Token>>,
                                         names: set<string>)
    requires captures.Keys == values.Keys && forall n :: n in values ==> captures[n] == Render(values[n])
    ensures Render(Substituted(ts, captures, names)) == Render(Splice(ts, values, names))
  {
    if ts == [] {
    } else {
      SpliceRenders(ts[1..], captures, values, names);
      var us := Substituted(ts, captures, names);
      assert us[1..] == Substituted(ts[1..], captures, names);
      RenderAppend(SpliceOne(ts[0], values, names), Splice(ts[1..], values, names));
      RenderOne(ts[0]);
    }
  }

  lemma WellFormedAppend(a: seq<Token>, b: seq<Token>)
    ensures WellFormed(a + b) <==> WellFormed(a) && WellFormed(b)
  {
    assert forall i :: 0 <= i < |a| ==> (a + b)[i] == a[i];
    assert forall i :: 0 <= i < |b| ==> (a + b)[|a| + i] == b[i];
  }

  lemma MentionsAppend(a: seq<Token>, b: seq<Token>, name: string)
    ensures Mentions(a + b, name) <==> Mentions(a, name) || Mentions(b, name)
  {
    assert forall i :: 0 <= i < |a| ==> (a + b)[i] == a[i];
    assert forall i :: 0 <= i < |b| ==> (a + b)[|a| + i] == b[i];
  }

  lemma MentionsSplit(ts: seq<Token>, name: string)
    requires ts != []
    ensures Mentions(ts, name) <==> ts[0] == Hole(name) || Mentions(ts[1..], name)
  {
    assert ts == [ts[0]] + ts[1..];
    MentionsAppend([ts[0]], ts[1..], name);
    if Mentions([ts[0]], name) { assert [ts[0]][0] == Hole(name); }
    if ts[0] == Hole(name) { assert [ts[0]][0] == Hole(name); }
  }

  lemma {:induction false} SpliceWellFormed(ts: seq<Token>, values: map<string, seq<Token>>, names: set<string>)
    requires WellFormed(ts) && forall n :: n in values ==> WellFormed(values[n])
    ensures WellFormed(Splice(ts, values, names))
  {
    if ts == [] {
    } else {
      SpliceWellFormed(ts[1..], values, names);
      WellFormedAppend(SpliceOne(ts[0], values, names), Splice(ts[1..], values, names));
    }
  }

  /** The placeholders left after a splice: old ones not replaced, and those of the values put in. */
  lemma {:induction false} SpliceMentions(ts: seq<Token>, values: map<string, seq<Token>>, names: set<string>,
                                          m: string)
    ensures Mentions(Splice(ts, values, names), m) <==>
            || (Mentions(ts, m) && !(m in values && m in names))
            || exists n :: n in values && n in names && Mentions(ts, n) && Mentions(values[n], m)
  {
    if ts == [] {
    } else {
      SpliceMentions(ts[1..], values, names, m);
      MentionsAppend(SpliceOne(ts[0], values, names), Splice(ts[1..], values, names), m);
      MentionsSplit(ts, m);
      OneMentions(ts[0], values, names, m);
      forall n ensures Mentions(ts, n) <==> ts[0] == Hole(n) || Mentions(ts[1..], n) { MentionsSplit(ts, n); }
    }
  }

  lemma OneMentions(t: Token, values: map<string, seq<Token>>, names: set<string>, m: string)
    ensures Mentions(SpliceOne(t, values, names), m) <==>
            || (t == Hole(m) && !(m in values && m in names))
            || (t.Hole? && t.name in values && t.name in names && Mentions(values[t.name], m))
  {
    assert [t][0] == t;
  }

  /** One turn of the loop over the captures, on tokens. */
  lemma ReplaceIsSplice(us: seq<Token>, captures: map<string, string>, values: map<string, seq<Token>>, name: string)
    requires WellFormed(us) && Tokenized(captures, values) && name in values
    ensures ReplaceAll(Render(us), Braced(name), captures[name]) == Render(Splice(us, values, {name}))
  {
    ReplaceIsSubstitution(us, name, captures[name]);
    assert Substituted(us, map[name := captures[name]], {name}) == Substituted(us, captures, {name});
    SpliceRenders(us, captures, values, {name});
  }

  lemma {:induction false} InOrderWellFormed(ts: seq<Token>, values: map<string, seq<Token>>, order: seq<string>)
    requires WellFormed(ts) && forall n :: n in values ==> WellFormed(values[n])
    ensures WellFormed(SpliceInOrder(ts, values, order))
  {
    if order == [] {
    } else {
      InOrderWellFormed(ts, values, order[..|order| - 1]);
      SpliceWellFormed(SpliceInOrder(ts, values, order[..|order| - 1]), values, {order[|order| - 1]});
    }
  }

  lemma {:induction false} FormattedIsSpliced(ts: seq<Token>, captures: map<string, string>,
                                              values: map<string, seq<Token>>, order: seq<string>)
    requires WellFormed(ts) && Tokenized(captures, values) && forall n :: n in order ==> n in captures
    ensures WellFormed(SpliceInOrder(ts, values, order))
    ensures Formatted(Render(ts), captures, order) == Render(SpliceInOrder(ts, values, order))
  {
    InOrderWellFormed(ts, values, order);
    if order == [] {
    } else {
      var init, name := order[..|order| - 1], order[|order| - 1];
      FormattedIsSpliced(ts, captures, values, init);
      ReplaceIsSplice(SpliceInOrder(ts, values, init), captures, values, name);
    }
  }

  // ---------------------------------------------------------------- harmless values

  lemma {:induction false} SpliceNothing(ts: seq<Token>, values: map<string, seq<Token>>, names: set<string>)
    requires forall n :: n in names && n in values ==> !Mentions(ts, n)
    ensures Splice(ts, values, names) == ts
  {
    if ts == [] {
    } else {
      forall n | n in names && n in values ensures !Mentions(ts[1..], n) && ts[0] != Hole(n) { MentionsSplit(ts, n); }
      SpliceNothing(ts[1..], values, names);
    }
  }

  lemma {:induction false} SpliceAppend(a: seq<Token>, b: seq<Token>, values: map<string, seq<Token>>,
                                        names: set<string>)
    ensures Splice(a + b, values, names) == Splice(a, values, names) + Splice(b, values, names)
  {
    if a == [] {
      assert a + b == b;
    } else {
      SpliceAppend(a[1..], b, values, names);
      assert (a + b)[1..] == a[1..] + b;
    }
  }

  lemma {:induction false} SpliceOneMore(ts: seq<Token>, values: map<string, seq<Token>>, names: set<string>,
                                         name: string)
    requires Harmless(ts, values) && name in values && name !in names
    ensures Splice(Splice(ts, values, names), values, {name}) == Splice(ts, values, names + {name})
  {
    if ts == [] {
    } else {
      var t, head := ts[0], SpliceOne(ts[0], values, names);
      assert forall k :: 0 <= k < |ts[1..]| ==> ts[1..][k] == ts[k + 1];
      SpliceOneMore(ts[1..], values, names, name);
      SpliceAppend(head, Splice(ts[1..], values, names), values, {name});
      if t.Hole? && t.name in values && t.name in names {
        SpliceNothing(head, values, {name});
      } else {
        assert [t][1..] == [];
        assert Splice([t], values, {name}) == SpliceOne(t, values, {name}) + [];
      }
    }
  }

  lemma {:induction false} HarmlessInAnyOrder(ts: seq<Token>, values: map<string, seq<Token>>, order: seq<string>)
    requires Harmless(ts, values) && Distinct(order) && forall n :: n in order ==> n in values
    ensures SpliceInOrder(ts, values, order) == Splice(ts, values, Names(order))
  {
    if order == [] {
      SpliceNothing(ts, values, Names(order));
    } else {
      var init, name := order[..|order| - 1], order[|order| - 1];
      HarmlessInAnyOrder(ts, values, init);
      SpliceOneMore(ts, values, Names(init), name);
      assert order == init + [name];
      assert Names(order) == Names(init) + {name};
    }
  }

  /** With harmless values every order is simultaneous substitution. */
  lemma HarmlessIsSimultaneous(ts: seq<Token>, captures: map<string, string>, values: map<string, seq<Token>>,
                               out: string)
    requires WellFormed(ts) && Tokenized(captures, values) && Harmless(ts, values) &&
               IsFormatted(Render(ts), captures, out)
    ensures out == Render(Substituted(ts, captures, captures.Keys)) == Render(Splice(ts, values, values.Keys))
  {
    var order :| Enumerates(order, captures) && out == Formatted(Render(ts), captures, order);
    FormattedIsSpliced(ts, captures, values, order);
    HarmlessInAnyOrder(ts, values, order);
    assert Names(order) == captures.Keys;
    SpliceRenders(ts, captures, values, captures.Keys);
  }

  // ---------------------------------------------------------------- harmful values

  lemma Enumerate(s: set<string>) returns (order: seq<string>)
    ensures Distinct(order) && forall n :: n in order <==> n in s
  {
    order := [];
    var rest := s;
    while rest != {}
      invariant rest <= s && Distinct(order) && forall n :: n in order <==> n in s && n !in rest
      decreases |rest|
    {
      var n :| n in rest;
      rest, order := rest - {n}, order + [n];
    }
  }

  /** An order that visits `last` last. */
  lemma EnumerateWithLast(captures: map<string, string>, last: string) returns (init: seq<string>)
    requires last in captures
    ensures Enumerates(init + [last], captures) && last !in init
  {
    init := Enumerate(captures.Keys - {last});
  }

  /** A placeholder stays until its own turn. */
  lemma {:induction false} MentionedUntilItsTurn(ts: seq<Token>, values: map<string, seq<Token>>, order: seq<string>,
                                                 name: string)
    requires Mentions(ts, name) && name !in order
    ensures Mentions(SpliceInOrder(ts, values, order), name)
  {
    if order == [] {
    } else {
      MentionedUntilItsTurn(ts, values, order[..|order| - 1], name);
      SpliceMentions(SpliceInOrder(ts, values, order[..|order| - 1]), values, {order[|order| - 1]}, name);
    }
  }

  lemma {:induction false} BlankingShrinks(ts: seq<Token>, name: string)
    requires WellFormed(ts) && IsIdent(name)
    ensures |ReplaceAll(Render(ts), Braced(name), "")| <= |Render(ts)|
    ensures Mentions(ts, name) <==> |ReplaceAll(Render(ts), Braced(name), "")| < |Render(ts)|
  {
    if ts == [] {
    } else {
      BlankingShrinks(ts[1..], name);
      MentionsSplit(ts, name);
      match ts[0]
      case Lit(text) => ReplaceSkips(text, Render(ts[1..]), name, "");
      case Hole(other) =>
        if other == name {
          ReplaceHits(Render(ts[1..]), name, "");
        } else {
          ReplaceMisses(Render(ts[1..]), other, name, "");
        }
    }
  }

  /** Texts of templates that differ in whether they mention a name are different. */
  lemma MentionShows(a: seq<Token>, b: seq<Token>, name: string)
    requires WellFormed(a) && WellFormed(b) && IsIdent(name) && Mentions(a, name) && !Mentions(b, name)
    ensures Render(a) != Render(b)
  {
    BlankingShrinks(a, name);
    BlankingShrinks(b, name);
  }

  lemma LastTurn(ts: seq<Token>, values: map<string, seq<Token>>, init: seq<string>, last: string)
    ensures SpliceInOrder(ts, values, init + [last]) == Splice(SpliceInOrder(ts, values, init), values, {last})
  {
    assert (init + [last])[..|init|] == init;
  }

  /** Visiting `a` last leaves what its value brings in. */
  lemma LastBringsIn(ts: seq<Token>, values: map<string, seq<Token>>, init: seq<string>, a: string, b: string)
    requires a in values && a !in init && Mentions(ts, a) && Mentions(values[a], b)
    ensures Mentions(SpliceInOrder(ts, values, init + [a]), b)
  {
    LastTurn(ts, values, init, a);
    MentionedUntilItsTurn(ts, values, init, a);
    SpliceMentions(SpliceInOrder(ts, values, init), values, {a}, b);
  }

  /** Visiting `b` last leaves no `b`. */
  lemma LastClears(ts: seq<Token>, values: map<string, seq<Token>>, init: seq<string>, b: string)
    requires b in values && !Mentions(values[b], b)
    ensures !Mentions(SpliceInOrder(ts, values, init + [b]), b)
  {
    LastTurn(ts, values, init, b);
    SpliceMentions(SpliceInOrder(ts, values, init), values, {b}, b);
  }

  lemma HarmShows(ts: seq<Token>, captures: map<string, string>, values: map<string, seq<Token>>, a: string, b: string)
      returns (out1: string, out2: string)
    requires WellFormed(ts) && Tokenized(captures, values)
    requires BringsIn(ts, values, a, b) && !Mentions(values[b], b)
    ensures IsFormatted(Render(ts), captures, out1) && IsFormatted(Render(ts), captures, out2) && out1 != out2
  {
    var init1 := EnumerateWithLast(captures, a);
    var init2 := EnumerateWithLast(captures, b);
    LastBringsIn(ts, values, init1, a, b);
    LastClears(ts, values, init2, b);
    out1 := FormattedWith(ts, captures, values, init1 + [a]);
    out2 := FormattedWith(ts, captures, values, init2 + [b]);
    MentionShows(SpliceInOrder(ts, values, init1 + [a]), SpliceInOrder(ts, values, init2 + [b]), b);
  }

  lemma FormattedWith(ts: seq<Token>, captures: map<string, string>, values: map<string, seq<Token>>,
                      order: seq<string>)
      returns (out: string)
    requires WellFormed(ts) && Tokenized(captures, values) && Enumerates(order, captures)
    ensures WellFormed(SpliceInOrder(ts, values, order))
    ensures IsFormatted(Render(ts), captures, out) && out == Render(SpliceInOrder(ts, values, order))
  {
    FormattedIsSpliced(ts, captures, values, order);
    out := Formatted(Render(ts), captures, order);
  }

  /** All orders of the captures format to the same text. */
  ghost predicate OrderIrrelevant(tpl: string, captures: map<string, string>) {
    forall out1, out2 :: IsFormatted(tpl, captures, out1) && IsFormatted(tpl, captures, out2) ==> out1 == out2
  }

  /** Exactly: the order of the captures does not show if and only if no value the template uses
      brings in the placeholder of another capture. */
  lemma OrderIrrelevantIff(ts: seq<Token>, captures: map<string, string>, values: map<string, seq<Token>>)
    requires WellFormed(ts) && Tokenized(captures, values) && EchoFree(ts, values)
    ensures OrderIrrelevant(Render(ts), captures) <==> Harmless(ts, values)
  {
    if Harmless(ts, values) {
      forall out1, out2 | IsFormatted(Render(ts), captures, out1) && IsFormatted(Render(ts), captures, out2)
        ensures out1 == out2
      {
        HarmlessIsSimultaneous(ts, captures, values, out1);
        HarmlessIsSimultaneous(ts, captures, values, out2);
      }
    } else {
      var a, b :| a in values && b in values && BringsIn(ts, values, a, b);
      var out1, out2 := HarmShows(ts, captures, values, a, b);
    }
  }

  /** Inert values, those without an opening brace for a start, are harmless in every template. */
  lemma TameIsHarmless(ts: seq<Token>, captures: map<string, string>)
    requires Tame(captures)
    ensures var values := map n | n in captures :: [Lit(captures[n])];
            Tokenized(captures, values) && Harmless(ts, values)
  {
    forall n | n in captures ensures Render([Lit(captures[n])]) == captures[n] { RenderOne(Lit(captures[n])); }
  }
}
