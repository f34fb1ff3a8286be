/** Picking the instance a URL goes to: template substitution in map order, the leftover check,
    and the first-match walk over the enabled instances. */
module Routing {
  import opened Base

  // ---------------------------------------------------------------- text

  /** strings.ReplaceAll for a non-empty pattern. */
  function ReplaceAll(s: string, pat: string, value: string): string
    requires pat != ""
  {
    if |s| < |pat| then s
    else if s[..|pat|] == pat then value + ReplaceAll(s[|pat|..], pat, value)
    else [s[0]] + ReplaceAll(s[1..], pat, value)
  }

  predicate IdentStart(c: char) { 'A' <= c <= 'Z' || 'a' <= c <= 'z' || c == '_' }

  predicate IdentChar(c: char) { IdentStart(c) || '0' <= c <= '9' }

  predicate IsIdent(s: string) {
    s != "" && IdentStart(s[0]) && forall i :: 0 < i < |s| ==> IdentChar(s[i])
  }

  function Braced(name: string): (s: string)
    ensures s != ""
  {
    "{" + name + "}"
  }

  /** unresolvedPlaceholderRE finds something. */
  predicate Leftover(s: string) {
    exists i, j :: 0 <= i < j < |s| && s[i] == '{' && s[j] == '}' && IsIdent(s[i + 1..j])
  }

  // ---------------------------------------------------------------- templates

  datatype Token = Lit(text: string) | Hole(name: string)

  function Text(t: Token): string {
    match t case Lit(text) => text case Hole(name) => Braced(name)
  }

  function Render(ts: seq<Token>): string {
    if ts == [] then "" else Text(ts[0]) + Render(ts[1..])
  }

  /** The brace at `i` is spoilt at `j`: a character that no placeholder can have there. */
  predicate SpoiltAt(text: string, i: nat, j: nat)
    requires i < j < |text|
  {
    && (forall k :: i < k < j ==> IdentChar(text[k]))
    && !IdentChar(text[j]) && !(text[j] == '}' && IsIdent(text[i + 1..j]))
  }

  /** No placeholder starts inside the text, whatever comes behind it; text without an opening brace,
      for one. */
  predicate Inert(text: string) {
    forall i :: 0 <= i < |text| && text[i] == '{' ==> exists j :: i < j < |text| && SpoiltAt(text, i, j)
  }

  /** The literal parts are inert, and the names of the placeholders are identifiers. */
  predicate WellFormed(ts: seq<Token>) {
    forall i :: 0 <= i < |ts| ==> match ts[i] case Lit(text) => Inert(text) case Hole(name) => IsIdent(name)
  }

  /** Capture groups have identifier names; the URL supplied the values. */
  predicate Tame(captures: map<string, string>) {
    forall n :: n in captures ==> IsIdent(n) && Inert(captures[n])
  }

  function Resolve(t: Token, captures: map<string, string>, names: set<string>): Token {
    if t.Hole? && t.name in captures && t.name in names then Lit(captures[t.name]) else t
  }

  /** Substitute the captures named in `names`, all at once. */
  function Substituted(ts: seq<Token>, captures: map<string, string>, names: set<string>): seq<Token> {
    seq(|ts|, i requires 0 <= i < |ts| => Resolve(ts[i], captures, names))
  }

  /** What the loop over the captures makes of the template when it visits them in this order. */
  function Formatted(tpl: string, captures: map<string, string>, order: seq<string>): string
    requires forall n :: n in order ==> n in captures
  {
    if order == [] then tpl
    else
      var name := order[|order| - 1];
      ReplaceAll(Formatted(tpl, captures, order[..|order| - 1]), Braced(name), captures[name])
  }

  ghost predicate Enumerates(order: seq<string>, captures: map<string, string>) {
    Distinct(order) && forall n :: n in order <==> n in captures
  }

  /** `out` comes from visiting the captures in some order. */
  ghost predicate IsFormatted(tpl: string, captures: map<string, string>, out: string) {
    exists order {:trigger Enumerates(order, captures)} :: Enumerates(order, captures) &&
        out == Formatted(tpl, captures, order)
  }

  method FormatMatchTemplate(tpl: string, captures: map<string, string>) returns (out: string)
    ensures IsFormatted(tpl, captures, out)
  {
    out := tpl;
    var rest := captures.Keys;
    ghost var order: seq<string> := [];
    while rest != {}
      invariant rest <= captures.Keys && Distinct(order)
      invariant forall n :: n in order <==> n in captures && n !in rest
      invariant out == Formatted(tpl, captures, order)
      decreases |rest|
    {
      var name :| name in rest;
      out := ReplaceAll(out, Braced(name), captures[name]);
      assert (order + [name])[..|order|] == order;
      rest, order := rest - {name}, order + [name];
    }
    assert Enumerates(order, captures);
  }

  // ---------------------------------------------------------------- one replacement

  /** Nothing that starts in inert text reads as a placeholder. */
  lemma InertStartsNothing(a: string, b: string, i: nat, j: nat)
    requires Inert(a) && i < |a| && a[i] == '{' && i < j < |a + b|
    ensures !((a + b)[j] == '}' && IsIdent((a + b)[i + 1..j]))
  {
    var s := a + b;
    var m :| i < m < |a| && SpoiltAt(a, i, m);
    assert m < j ==> s[i + 1..j][m - i - 1] == a[m];
    assert m == j ==> s[i + 1..j] == a[i + 1..m];
    assert j < m ==> s[j] == a[j];
  }

  lemma InertTail(a: string)
    requires Inert(a) && a != ""
    ensures Inert(a[1..])
  {
    var t := a[1..];
    forall i | 0 <= i < |t| && t[i] == '{' ensures exists j :: i < j < |t| && SpoiltAt(t, i, j) {
      assert a[i + 1] == '{';
      var j :| i + 1 < j < |a| && SpoiltAt(a, i + 1, j);
      assert t[i + 1..j - 1] == a[i + 2..j];
      assert forall k :: i < k < j ==> t[k - 1] == a[k];
      assert forall k :: i < k < j - 1 ==> t[k] == a[k + 1];
      assert SpoiltAt(t, i, j - 1);
    }
  }

  lemma InertNoMatch(a: string, b: string, name: string)
    requires Inert(a) && a != "" && IsIdent(name)
    ensures !(Braced(name) <= a + b)
  {
    if Braced(name) <= a + b {
      var j := |name| + 1;
      assert (a + b)[0] == Braced(name)[0] && (a + b)[j] == Braced(name)[j];
      assert (a + b)[0 + 1..j] == Braced(name)[1..j] == name;
      InertStartsNothing(a, b, 0, j);
    }
  }

  /** Inert text is copied. */
  lemma {:induction false} ReplaceSkips(a: string, b: string, name: string, value: string)
    requires Inert(a) && IsIdent(name)
    ensures ReplaceAll(a + b, Braced(name), value) == a + ReplaceAll(b, Braced(name), value)
  {
    if a == "" {
      assert a + b == b;
    } else {
      InertTail(a);
      InertNoMatch(a, b, name);
      ReplaceSkips(a[1..], b, name, value);
      SkipsOne(a[0], a[1..], b, Braced(name), value);
      assert a == [a[0]] + a[1..];
    }
  }

  lemma SkipsOne(c: char, rest: string, b: string, pat: string, value: string)
    requires pat != "" && !(pat <= ([c] + rest) + b)
    requires ReplaceAll(rest + b, pat, value) == rest + ReplaceAll(b, pat, value)
    ensures ReplaceAll(([c] + rest) + b, pat, value) == ([c] + rest) + ReplaceAll(b, pat, value)
  {
    assert ([c] + rest) + b == [c] + (rest + b);
    ReplaceSteps(rest + b, c, pat, value);
  }

  lemma IdentHasNoBrace(name: string)
    requires IsIdent(name)
    ensures '{' !in name && '}' !in name
  {
  }

  /** The placeholder itself is replaced. */
  lemma ReplaceHits(b: string, name: string, value: string)
    ensures ReplaceAll(Braced(name) + b, Braced(name), value) == value + ReplaceAll(b, Braced(name), value)
  {
    var pat := Braced(name);
    assert (pat + b)[..|pat|] == pat;
    assert (pat + b)[|pat|..] == b;
  }

  lemma SamePlaceholder(b: string, other: string, name: string)
    requires IsIdent(other) && IsIdent(name) && Braced(name) <= Braced(other) + b
    ensures other == name
  {
    var pat, s := Braced(name), Braced(other) + b;
    IdentHasNoBrace(other);
    IdentHasNoBrace(name);
    assert forall i :: 0 <= i < |pat| ==> s[i] == pat[i];
    assert forall i :: 0 <= i < |other| ==> s[i + 1] == other[i] && other[i] != '}';
    assert forall i :: 0 <= i < |name| ==> pat[i + 1] == name[i] && name[i] != '}';
    assert s[|other| + 1] == '}' && pat[|name| + 1] == '}';
    assert s[|name| + 1] == '}';
    assert |other| <= |name|;
    assert pat[|other| + 1] == '}';
    assert |name| == |other|;
    assert forall i :: 0 <= i < |name| ==> name[i] == pat[i + 1] == other[i];
  }

  /** Another placeholder is copied: names hold no braces, so none starts inside another. */
  lemma ReplaceMisses(b: string, other: string, name: string, value: string)
    requires IsIdent(other) && IsIdent(name) && other != name
    ensures ReplaceAll(Braced(other) + b, Braced(name), value) == Braced(other) + ReplaceAll(b, Braced(name), value)
  {
    if Braced(name) <= Braced(other) + b { SamePlaceholder(b, other, name); }
    IdentHasNoBrace(other);
    ReplacePasses(b, other + "}", Braced(other), name, value);
  }

  lemma ReplacePasses(b: string, rest: string, other: string, name: string, value: string)
    requires other == ['{'] + rest && '{' !in rest && IsIdent(name) && !(Braced(name) <= other + b)
    ensures ReplaceAll(other + b, Braced(name), value) == other + ReplaceAll(b, Braced(name), value)
  {
    assert other + b == ['{'] + (rest + b);
    ReplaceSteps(rest + b, '{', Braced(name), value);
    ReplaceSkips(rest, b, name, value);
  }

  lemma ReplaceSteps(s: string, c: char, pat: string, value: string)
    requires pat != "" && !(pat <= [c] + s)
    ensures ReplaceAll([c] + s, pat, value) == [c] + ReplaceAll(s, pat, value)
  {
    assert ([c] + s)[1..] == s;
  }

  /** One pass over the text is one substitution in the template. */
  lemma {:induction false} ReplaceIsSubstitution(ts: seq<Token>, name: string, value: string)
    requires WellFormed(ts) && IsIdent(name)
    ensures ReplaceAll(Render(ts), Braced(name), value) == Render(Substituted(ts, map[name := value], {name}))
  {
    if ts == [] {
    } else {
      var t, tail := ts[0], Render(ts[1..]);
      ReplaceIsSubstitution(ts[1..], name, value);
      var us := Substituted(ts, map[name := value], {name});
      assert us[1..] == Substituted(ts[1..], map[name := value], {name});
      match t
      case Lit(text) => ReplaceSkips(text, tail, name, value);
      case Hole(other) =>
        if other == name { ReplaceHits(tail, name, value); } else { ReplaceMisses(tail, other, name, value); }
    }
  }

  // ---------------------------------------------------------------- all of them, in any order

  lemma SubstitutedOneMore(ts: seq<Token>, captures: map<string, string>, names: set<string>, name: string)
    requires name in captures
    ensures Substituted(Substituted(ts, captures, names), map[name := captures[name]], {name})
         == Substituted(ts, captures, names + {name})
  {
  }

  function Names(order: seq<string>): set<string> { set n | n in order }

  lemma WellFormedAfter(ts: seq<Token>, captures: map<string, string>, names: set<string>)
    requires WellFormed(ts) && Tame(captures)
    ensures WellFormed(Substituted(ts, captures, names))
  {
  }

  lemma {:induction false} FormattedIsSubstituted(ts: seq<Token>, captures: map<string, string>, order: seq<string>)
    requires WellFormed(ts) && Tame(captures) && forall n :: n in order ==> n in captures
    ensures Formatted(Render(ts), captures, order) == Render(Substituted(ts, captures, Names(order)))
  {
    if order == [] {
      assert Names(order) == {};
      assert Substituted(ts, captures, {}) == ts;
    } else {
      var init, name := order[..|order| - 1], order[|order| - 1];
      FormattedIsSubstituted(ts, captures, init);
      SubstitutedOneMore(ts, captures, Names(init), name);
      assert order == init + [name];
      assert Names(order) == Names(init) + {name};
      WellFormedAfter(ts, captures, Names(init));
      ReplaceIsSubstitution(Substituted(ts, captures, Names(init)), name, captures[name]);
    }
  }

  /** Sequential replacement in any map order is simultaneous substitution. */
  lemma AnyOrderIsSimultaneous(ts: seq<Token>, captures: map<string, string>, out: string)
    requires WellFormed(ts) && Tame(captures) && IsFormatted(Render(ts), captures, out)
    ensures out == Render(Substituted(ts, captures, captures.Keys))
  {
    var order :| Enumerates(order, captures) && out == Formatted(Render(ts), captures, order);
    FormattedIsSubstituted(ts, captures, order);
    assert Names(order) == captures.Keys;
  }

  /** A captured value with a brace in it can make the order show: the same template and captures
      format to two different texts, one of them with a leftover. */
  lemma BracedValueWitness()
    ensures var captures := map["a" := "{b}", "b" := "x"];
            && IsFormatted("{a}", captures, "x") && IsFormatted("{a}", captures, "{b}")
            && Leftover("{b}") && !Leftover("x")
  {
    var captures := map["a" := "{b}", "b" := "x"];
    WholeHole("a", "{b}");
    WholeHole("b", "x");
    assert Braced("a") == "{a}" && Braced("b") == "{b}";
    assert ReplaceAll("{a}", "{b}", "x") == "{a}" by {
      assert "{a}"[1] == 'a' && "{b}"[1] == 'b';
      assert "{a}"[..3] == "{a}" && ['{'] + "a}" == "{a}" && "{a}"[1..] == "a}";
    }
    FormattedTwo("{a}", captures, "a", "b");
    FormattedTwo("{a}", captures, "b", "a");
    assert Enumerates(["a", "b"], captures) && Enumerates(["b", "a"], captures);
    LeftoverInFront("b", "");
    assert Braced("b") + "" == "{b}";
  }

  lemma WholeHole(name: string, value: string)
    ensures ReplaceAll(Braced(name), Braced(name), value) == value
  {
    ReplaceHits("", name, value);
    assert Braced(name) + "" == Braced(name);
    assert value + "" == value;
  }

  lemma FormattedTwo(tpl: string, captures: map<string, string>, first: string, second: string)
    requires first in captures && second in captures
    ensures Formatted(tpl, captures, [first, second]) ==
            ReplaceAll(ReplaceAll(tpl, Braced(first), captures[first]), Braced(second), captures[second])
  {
    assert [first, second][..1] == [first] && [first][..0] == [];
    assert Formatted(tpl, captures, [first]) == ReplaceAll(tpl, Braced(first), captures[first]);
  }

  // ---------------------------------------------------------------- the leftover check

  ghost predicate HasHole(ts: seq<Token>) {
    exists k :: 0 <= k < |ts| && ts[k].Hole?
  }

  lemma HasHoleSplit(ts: seq<Token>)
    requires ts != []
    ensures HasHole(ts) <==> ts[0].Hole? || HasHole(ts[1..])
  {
    assert forall k :: 0 < k < |ts| ==> ts[1..][k - 1] == ts[k];
    assert forall k :: 0 <= k < |ts[1..]| ==> ts[k + 1] == ts[1..][k];
  }

  /** The only placeholders that can be read in a rendered template are its own. */
  lemma {:induction false} LeftoverIffHole(ts: seq<Token>)
    requires WellFormed(ts)
    ensures Leftover(Render(ts)) <==> HasHole(ts)
  {
    if ts == [] {
    } else {
      LeftoverIffHole(ts[1..]);
      HasHoleSplit(ts);
      match ts[0]
      case Hole(name) => LeftoverInFront(name, Render(ts[1..]));
      case Lit(text) => LeftoverBehind(text, Render(ts[1..]));
    }
  }

  lemma LeftoverInFront(name: string, b: string)
    requires IsIdent(name)
    ensures Leftover(Braced(name) + b)
  {
    var s, j := Braced(name) + b, |name| + 1;
    assert s[0 + 1..j] == name;
    assert s[0] == '{' && s[j] == '}';
  }

  lemma LeftoverBehind(a: string, b: string)
    requires Inert(a)
    ensures Leftover(a + b) <==> Leftover(b)
  {
    var s := a + b;
    if i, j :| 0 <= i < j < |s| && s[i] == '{' && s[j] == '}' && IsIdent(s[i + 1..j]) {
      if i < |a| {
        InertStartsNothing(a, b, i, j);
      }
      assert b[i - |a|..] == s[i..];
      assert b[i - |a| + 1..j - |a|] == s[i + 1..j];
    }
    if i, j :| 0 <= i < j < |b| && b[i] == '{' && b[j] == '}' && IsIdent(b[i + 1..j]) {
      assert s[|a| + i] == '{' && s[|a| + j] == '}' && s[|a| + i + 1..|a| + j] == b[i + 1..j];
    }
  }

  lemma HoleSurvivesIff(ts: seq<Token>, captures: map<string, string>)
    ensures HasHole(Substituted(ts, captures, captures.Keys)) <==>
            exists k :: 0 <= k < |ts| && ts[k].Hole? && ts[k].name !in captures
  {
    var us := Substituted(ts, captures, captures.Keys);
    assert forall k :: 0 <= k < |ts| ==> us[k] == Resolve(ts[k], captures, captures.Keys);
  }

  /** The check passes exactly when every placeholder was captured. */
  lemma LeftoverIffUncaptured(ts: seq<Token>, captures: map<string, string>, out: string)
    requires WellFormed(ts) && Tame(captures) && IsFormatted(Render(ts), captures, out)
    ensures Leftover(out) <==> exists k :: 0 <= k < |ts| && ts[k].Hole? && ts[k].name !in captures
  {
    AnyOrderIsSimultaneous(ts, captures, out);
    WellFormedAfter(ts, captures, captures.Keys);
    LeftoverIffHole(Substituted(ts, captures, captures.Keys));
    HoleSurvivesIff(ts, captures);
  }
}
