/** pickInstance: the decision chain in front of the first-match walk, and the walk. */
module PickInstance {
  import opened Base
  import opened Routing
  import opened FormatOrder

  /** A decoded YAML value; list items that are not strings are None. */
  datatype ConfigValue = Strings(items: seq<string>) | Anys(mixed: seq<Option<string>>) | NotAList

  datatype Instance = Instance(name: string, enabled: bool, config: map<string, ConfigValue>)

  datatype RoutingDecl = RoutingDecl(strategy: string, template: string, configField: string)

  /** What one url_pattern says about the URL. */
  datatype PatternResult = Malformed | NoMatch | Match(captures: map<string, string>)

  datatype RouteError = Unrouted | NoURLRouting | UnsupportedStrategy | NoPatternMatched | UnresolvedPlaceholder

  /** path.Match: None is ErrBadPattern. */
  type Globber = (string, string) -> Option<bool>

  function Enabled(instances: seq<Instance>): seq<Instance> {
    if instances == [] then []
    else
      var last := instances[|instances| - 1];
      Enabled(instances[..|instances| - 1]) + if last.enabled then [last] else []
  }

  method EnabledInstances(instances: seq<Instance>) returns (out: seq<Instance>)
    ensures out == Enabled(instances)
  {
    out := [];
    for i := 0 to |instances|
      invariant out == Enabled(instances[..i])
    {
      assert instances[..i + 1][..i] == instances[..i];
      if instances[i].enabled { out := out + [instances[i]]; }
    }
    assert instances[..|instances|] == instances;
  }

  function Present(items: seq<Option<string>>): seq<string> {
    if items == [] then []
    else Present(items[..|items| - 1]) + match items[|items| - 1] case None => [] case Some(s) => [s]
  }

  function Globs(inst: Instance, field: string): seq<string> {
    if field !in inst.config then []
    else match inst.config[field]
      case Strings(items) => items
      case Anys(mixed) => Present(mixed)
      case NotAList => []
  }

  method ExtractGlobList(inst: Instance, field: string) returns (globs: seq<string>)
    ensures globs == Globs(inst, field)
  {
    if field !in inst.config {
      return [];
    }
    match inst.config[field] {
      case Strings(items) =>
        globs := items;
      case NotAList =>
        globs := [];
      case Anys(mixed) =>
        globs := [];
        for i := 0 to |mixed|
          invariant globs == Present(mixed[..i])
        {
          assert mixed[..i + 1][..i] == mixed[..i];
          if mixed[i].Some? { globs := globs + [mixed[i].value]; }
        }
        assert mixed[..|mixed|] == mixed;
    }
  }

  method ExtractURLCaptures(patterns: seq<string>, url: string, run: (string, string) -> PatternResult)
      returns (r: Option<map<string, string>>)
    ensures IsFirstMatch(patterns, url, run, r)
  {
    for i := 0 to |patterns|
      invariant forall j :: 0 <= j < i ==> !run(patterns[j], url).Match?
    {
      var result := run(patterns[i], url);
      if result.Match? {
        return Some(result.captures);
      }
    }
    r := None;
  }

  /** The captures of the first pattern that matches; malformed patterns are passed over. */
  predicate IsFirstMatch(patterns: seq<string>, url: string, run: (string, string) -> PatternResult,
                         r: Option<map<string, string>>)
  {
    match r
    case None => forall j :: 0 <= j < |patterns| ==> !run(patterns[j], url).Match?
    case Some(captures) =>
      exists i :: 0 <= i < |patterns| && run(patterns[i], url) == Match(captures)
                  && forall j :: 0 <= j < i ==> !run(patterns[j], url).Match?
  }

  /** Some glob of the instance matches; malformed globs are passed over. */
  predicate Owns(inst: Instance, field: string, value: string, glob: Globber) {
    exists i :: 0 <= i < |Globs(inst, field)| && glob(Globs(inst, field)[i], value) == Some(true)
  }

  /** First enabled instance in declaration order, or an error exactly when nobody owns the value. */
  predicate IsFirstOwner(enabled: seq<Instance>, field: string, value: string, glob: Globber,
                         r: Result<string, RouteError>)
  {
    match r
    case Ok(name) =>
      exists k :: 0 <= k < |enabled| && enabled[k].name == name && Owns(enabled[k], field, value, glob)
                  && forall j :: 0 <= j < k ==> !Owns(enabled[j], field, value, glob)
    case Err(e) => e == Unrouted && forall j :: 0 <= j < |enabled| ==> !Owns(enabled[j], field, value, glob)
  }

  method Walk(enabled: seq<Instance>, field: string, value: string, glob: Globber)
      returns (r: Result<string, RouteError>)
    ensures IsFirstOwner(enabled, field, value, glob, r)
  {
    for k := 0 to |enabled|
      invariant forall j :: 0 <= j < k ==> !Owns(enabled[j], field, value, glob)
    {
      var globs := ExtractGlobList(enabled[k], field);
      for i := 0 to |globs|
        invariant forall m :: 0 <= m < i ==> glob(globs[m], value) != Some(true)
      {
        var matched := glob(globs[i], value);
        if matched.None? {
          continue;
        }
        if matched.value {
          return Ok(enabled[k].name);
        }
      }
    }
    r := Err(Unrouted);
  }

  /** One or more candidates and a decision to make. */
  predicate MustRoute(instances: seq<Instance>) {
    Enabled(instances) != [] && |instances| > 1
  }

  /** The cases that never look at the URL. */
  function ShortCut(instances: seq<Instance>): Result<string, RouteError>
    requires !MustRoute(instances)
  {
    if instances == [] then Ok("default")
    else if Enabled(instances) == [] then Err(Unrouted)
    else Ok(instances[0].name)
  }

  /** What routing by template may return. */
  ghost predicate IsRouted(instances: seq<Instance>, decl: Option<RoutingDecl>, patterns: seq<string>, url: string,
                           run: (string, string) -> PatternResult, glob: Globber, r: Result<string, RouteError>)
  {
    if decl.None? then r == Err(NoURLRouting)
    else if decl.value.strategy != "glob_match" then r == Err(UnsupportedStrategy)
    else if forall j :: 0 <= j < |patterns| ==> !run(patterns[j], url).Match? then r == Err(NoPatternMatched)
    else exists captures, out {:trigger IsFormatted(decl.value.template, captures, out)} ::
      && IsFirstMatch(patterns, url, run, Some(captures)) && IsFormatted(decl.value.template, captures, out)
      && if Leftover(out) then r == Err(UnresolvedPlaceholder)
         else IsFirstOwner(Enabled(instances), decl.value.configField, out, glob, r)
  }

  // ---------------------------------------------------------------- the answer in plain terms

  /** One of the instance's globs matches the value. */
  predicate HasGlob(inst: Instance, field: string, value: string, glob: Globber) {
    field in inst.config &&
    match inst.config[field]
    case Strings(items) => exists i :: 0 <= i < |items| && glob(items[i], value) == Some(true)
    case Anys(mixed) => exists i :: 0 <= i < |mixed| && mixed[i].Some? && glob(mixed[i].value, value) == Some(true)
    case NotAList => false
  }

  /** The first instance, as declared, that is enabled and has a matching glob; or Unrouted, if there is
      none. */
  predicate IsFirstDeclared(instances: seq<Instance>, field: string, value: string, glob: Globber,
                            r: Result<string, RouteError>)
  {
    match r
    case Ok(name) =>
      exists k :: 0 <= k < |instances| && instances[k].enabled && instances[k].name == name
                  && HasGlob(instances[k], field, value, glob)
                  && forall j :: 0 <= j < k && instances[j].enabled ==> !HasGlob(instances[j], field, value, glob)
    case Err(e) =>
      e == Unrouted && forall j :: 0 <= j < |instances| && instances[j].enabled ==>
          !HasGlob(instances[j], field, value, glob)
  }

  /** The whole answer. */
  ghost predicate Answers(instances: seq<Instance>, decl: Option<RoutingDecl>, patterns: seq<string>, url: string,
                          run: (string, string) -> PatternResult, glob: Globber, r: Result<string, RouteError>)
  {
    if instances == [] then r == Ok("default")
    else if forall k :: 0 <= k < |instances| ==> !instances[k].enabled then r == Err(Unrouted)
    else if |instances| == 1 then r == Ok(instances[0].name)
    else if decl.None? then r == Err(NoURLRouting)
    else if decl.value.strategy != "glob_match" then r == Err(UnsupportedStrategy)
    else if forall j :: 0 <= j < |patterns| ==> !run(patterns[j], url).Match? then r == Err(NoPatternMatched)
    else exists captures, out {:trigger IsFormatted(decl.value.template, captures, out)} ::
      && IsFirstMatch(patterns, url, run, Some(captures)) && IsFormatted(decl.value.template, captures, out)
      && if Leftover(out) then r == Err(UnresolvedPlaceholder)
         else IsFirstDeclared(instances, decl.value.configField, out, glob, r)
  }

  function IfEnabled(): Instance -> Option<Instance> {
    (inst: Instance) => if inst.enabled then Some(inst) else None
  }

  /** The enabled instances, in declaration order. */
  lemma {:induction false} EnabledInOrder(instances: seq<Instance>)
    ensures Picks(instances, Enabled(instances), IfEnabled())
  {
    if instances == [] {
      PicksNothing(IfEnabled());
    } else {
      var init, last := instances[..|instances| - 1], instances[|instances| - 1];
      EnabledInOrder(init);
      PicksOneMore(init, Enabled(init), IfEnabled(), last);
      assert instances == init + [last];
    }
  }

  lemma {:induction false} PresentMembers(items: seq<Option<string>>, s: string)
    ensures s in Present(items) <==> Some(s) in items
  {
    if items == [] {
    } else {
      PresentMembers(items[..|items| - 1], s);
      assert items == items[..|items| - 1] + [items[|items| - 1]];
    }
  }

  lemma OwnsIff(inst: Instance, field: string, value: string, glob: Globber)
    ensures Owns(inst, field, value, glob) <==> HasGlob(inst, field, value, glob)
  {
    if field in inst.config {
      match inst.config[field]
      case Strings(items) => assert Globs(inst, field) == items;
      case NotAList => assert Globs(inst, field) == [];
      case Anys(mixed) =>
        assert Globs(inst, field) == Present(mixed);
        PresentMatchIff(mixed, value, glob);
    } else {
      assert Globs(inst, field) == [];
    }
  }

  lemma PresentMatchIff(mixed: seq<Option<string>>, value: string, glob: Globber)
    ensures (exists i :: 0 <= i < |Present(mixed)| && glob(Present(mixed)[i], value) == Some(true)) <==>
            (exists i :: 0 <= i < |mixed| && mixed[i].Some? && glob(mixed[i].value, value) == Some(true))
  {
    if i :| 0 <= i < |Present(mixed)| && glob(Present(mixed)[i], value) == Some(true) {
      PresentMembers(mixed, Present(mixed)[i]);
      var j :| 0 <= j < |mixed| && mixed[j] == Some(Present(mixed)[i]);
    }
    if i :| 0 <= i < |mixed| && mixed[i].Some? && glob(mixed[i].value, value) == Some(true) {
      PresentMembers(mixed, mixed[i].value);
      var j :| 0 <= j < |Present(mixed)| && Present(mixed)[j] == mixed[i].value;
    }
  }

  /** `r` is the first entry that passes, if any does. */
  ghost predicate IsFirst<T>(s: seq<T>, passes: T -> bool, r: Option<T>) {
    match r
    case Some(x) => exists k :: 0 <= k < |s| && s[k] == x && passes(x) && forall j :: 0 <= j < k ==> !passes(s[j])
    case None => forall j :: 0 <= j < |s| ==> !passes(s[j])
  }

  lemma {:induction false} FirstEnabled(instances: seq<Instance>, passes: Instance -> bool, r: Option<Instance>)
    requires IsFirst(Enabled(instances), passes, r)
    ensures IsFirst(instances, (inst: Instance) => inst.enabled && passes(inst), r)
  {
    var both := (inst: Instance) => inst.enabled && passes(inst);
    if instances == [] {
    } else {
      var init, last := instances[..|instances| - 1], instances[|instances| - 1];
      assert forall j :: 0 <= j < |init| ==> init[j] == instances[j];
      if forall j :: 0 <= j < |Enabled(init)| ==> !passes(Enabled(init)[j]) {
        FirstEnabled(init, passes, None);
        assert last.enabled ==> Enabled(instances)[|Enabled(init)|] == last;
        assert forall j :: 0 <= j < |init| ==> !both(instances[j]);
        if r.Some? {
          assert instances[|instances| - 1] == last == r.value;
        } else {
          assert !both(last);
        }
      } else {
        var k :| 0 <= k < |Enabled(init)| && passes(Enabled(init)[k]);
        assert Enabled(instances)[k] == Enabled(init)[k];
        assert IsFirst(Enabled(init), passes, r) by {
          var m :| 0 <= m < |Enabled(instances)| && Enabled(instances)[m] == r.value && passes(r.value)
                   && forall j :: 0 <= j < m ==> !passes(Enabled(instances)[j]);
          assert m <= k;
          assert forall j :: 0 <= j < |Enabled(init)| ==> Enabled(init)[j] == Enabled(instances)[j];
        }
        FirstEnabled(init, passes, r);
        var m :| 0 <= m < |init| && init[m] == r.value && both(r.value) && forall j :: 0 <= j < m ==> !both(init[j]);
        assert instances[m] == r.value;
      }
    }
  }

  lemma FirstOwnerIsFirstDeclared(instances: seq<Instance>, field: string, value: string, glob: Globber,
                                  r: Result<string, RouteError>)
    requires IsFirstOwner(Enabled(instances), field, value, glob, r)
    ensures IsFirstDeclared(instances, field, value, glob, r)
  {
    var passes := (inst: Instance) => HasGlob(inst, field, value, glob);
    forall inst ensures Owns(inst, field, value, glob) <==> HasGlob(inst, field, value, glob) {
      OwnsIff(inst, field, value, glob);
    }
    var enabled := Enabled(instances);
    match r
    case Err(_) => FirstEnabled(instances, passes, None);
    case Ok(name) =>
      var k :| 0 <= k < |enabled| && enabled[k].name == name && Owns(enabled[k], field, value, glob)
               && forall j :: 0 <= j < k ==> !Owns(enabled[j], field, value, glob);
      assert forall j :: 0 <= j < k ==> !passes(enabled[j]);
      FirstEnabled(instances, passes, Some(enabled[k]));
  }

  lemma NoneEnabledIff(instances: seq<Instance>)
    ensures Enabled(instances) == [] <==> forall k :: 0 <= k < |instances| ==> !instances[k].enabled
  {
    EnabledInOrder(instances);
    var at: seq<nat> :| PicksAt(instances, Enabled(instances), IfEnabled(), at);
    if Enabled(instances) != [] { assert instances[at[0]].enabled; }
  }

  /** What the decision chain may return is the answer. */
  lemma RoutedAnswers(instances: seq<Instance>, decl: Option<RoutingDecl>, patterns: seq<string>, url: string,
                      run: (string, string) -> PatternResult, glob: Globber, r: Result<string, RouteError>)
    requires if MustRoute(instances) then IsRouted(instances, decl, patterns, url, run, glob, r)
               else r == ShortCut(instances)
    ensures Answers(instances, decl, patterns, url, run, glob, r)
  {
    NoneEnabledIff(instances);
    if MustRoute(instances) && decl.Some? && decl.value.strategy == "glob_match"
       && exists j :: 0 <= j < |patterns| && run(patterns[j], url).Match? {
      var captures, out :| IsFirstMatch(patterns, url, run, Some(captures))
        && IsFormatted(decl.value.template, captures, out)
        && if Leftover(out) then r == Err(UnresolvedPlaceholder)
           else IsFirstOwner(Enabled(instances), decl.value.configField, out, glob, r);
      if !Leftover(out) {
        FirstOwnerIsFirstDeclared(instances, decl.value.configField, out, glob, r);
      }
    }
  }

  /** pickInstance. */
  method PickInstance(instances: seq<Instance>, decl: Option<RoutingDecl>, patterns: seq<string>, url: string,
                      run: (string, string) -> PatternResult, glob: Globber) returns (r: Result<string, RouteError>)
    ensures Answers(instances, decl, patterns, url, run, glob, r)
    ensures !MustRoute(instances) ==> r == ShortCut(instances)
    ensures MustRoute(instances) ==> IsRouted(instances, decl, patterns, url, run, glob, r)
  {
    r := Decide(instances, decl, patterns, url, run, glob);
    RoutedAnswers(instances, decl, patterns, url, run, glob, r);
  }

  /** The decision chain. */
  method Decide(instances: seq<Instance>, decl: Option<RoutingDecl>, patterns: seq<string>, url: string,
                      run: (string, string) -> PatternResult, glob: Globber) returns (r: Result<string, RouteError>)
    ensures !MustRoute(instances) ==> r == ShortCut(instances)
    ensures MustRoute(instances) ==> IsRouted(instances, decl, patterns, url, run, glob, r)
  {
    var enabled := EnabledInstances(instances);
    EnabledOfOne(instances);
    if |enabled| == 0 {
      if |instances| > 0 {
        return Err(Unrouted);
      }
      return Ok("default");
    }
    if |enabled| == 1 && |instances| == 1 {
      return Ok(enabled[0].name);
    }
    if decl.None? {
      return Err(NoURLRouting);
    }
    if decl.value.strategy != "glob_match" {
      return Err(UnsupportedStrategy);
    }
    var captures := ExtractURLCaptures(patterns, url, run);
    if captures.None? {
      return Err(NoPatternMatched);
    }
    var formatted := FormatMatchTemplate(decl.value.template, captures.value);
    if Leftover(formatted) {
      return Err(UnresolvedPlaceholder);
    }
    r := Walk(enabled, decl.value.configField, formatted, glob);
  }

  lemma EnabledOfOne(instances: seq<Instance>)
    ensures |Enabled(instances)| <= |instances|
    ensures |instances| == 1 && Enabled(instances) != [] ==> Enabled(instances) == instances
  {
    if instances != [] {
      EnabledOfOne(instances[..|instances| - 1]);
    }
  }

  lemma FirstOwnerUnique(enabled: seq<Instance>, field: string, value: string, glob: Globber,
                         r1: Result<string, RouteError>, r2: Result<string, RouteError>)
    requires IsFirstOwner(enabled, field, value, glob, r1) && IsFirstOwner(enabled, field, value, glob, r2)
    ensures r1 == r2
  {
  }

  lemma FirstMatchUnique(patterns: seq<string>, url: string, run: (string, string) -> PatternResult,
                         c1: map<string, string>, c2: map<string, string>)
    requires IsFirstMatch(patterns, url, run, Some(c1)) && IsFirstMatch(patterns, url, run, Some(c2))
    ensures c1 == c2
  {
  }

  /** Routing end to end, with the map order gone: the first pattern that matches, its captures put
      into the template all at once, an unresolved-placeholder error exactly when one of the
      template's names was not captured, and otherwise the first enabled owner or Unrouted. */
  lemma RoutedExactly(instances: seq<Instance>, decl: RoutingDecl, ts: seq<Token>, patterns: seq<string>, url: string,
                      run: (string, string) -> PatternResult, glob: Globber, captures: map<string, string>,
                      r: Result<string, RouteError>)
    requires IsRouted(instances, Some(decl), patterns, url, run, glob, r)
    requires decl.strategy == "glob_match" && IsFirstMatch(patterns, url, run, Some(captures))
    requires WellFormed(ts) && decl.template == Render(ts) && Tame(captures)
    ensures r == Err(UnresolvedPlaceholder) <==> exists k :: 0 <= k < |ts| && ts[k].Hole? && ts[k].name !in captures
    ensures r != Err(UnresolvedPlaceholder) ==>
              IsFirstOwner(Enabled(instances), decl.configField, Render(Substituted(ts, captures, captures.Keys)),
                           glob, r)
  {
    var out := TextOf(instances, decl, patterns, url, run, glob, captures, r);
    AnyOrderIsSimultaneous(ts, captures, out);
    LeftoverIffUncaptured(ts, captures, out);
  }

  /** Two runs on the same input agree, whenever the captured values are harmless: text whose
      placeholders, if it has any, belong to no other capture. */
  lemma RoutingIsDeterministic(instances: seq<Instance>, decl: RoutingDecl, ts: seq<Token>, patterns: seq<string>,
                               url: string, run: (string, string) -> PatternResult, glob: Globber,
                               captures: map<string, string>, values: map<string, seq<Token>>,
                               r1: Result<string, RouteError>, r2: Result<string, RouteError>)
    requires IsRouted(instances, Some(decl), patterns, url, run, glob, r1)
    requires IsRouted(instances, Some(decl), patterns, url, run, glob, r2)
    requires IsFirstMatch(patterns, url, run, Some(captures))
    requires WellFormed(ts) && decl.template == Render(ts) && Tokenized(captures, values) && Harmless(ts, values)
    ensures r1 == r2
  {
    if decl.strategy == "glob_match" {
      var out := Render(Substituted(ts, captures, captures.Keys));
      RoutedBy(instances, decl, ts, patterns, url, run, glob, captures, values, r1);
      RoutedBy(instances, decl, ts, patterns, url, run, glob, captures, values, r2);
      if !Leftover(out) {
        FirstOwnerUnique(Enabled(instances), decl.configField, out, glob, r1, r2);
      }
    }
  }

  /** What one run does with the one text there is. */
  lemma RoutedBy(instances: seq<Instance>, decl: RoutingDecl, ts: seq<Token>, patterns: seq<string>, url: string,
                 run: (string, string) -> PatternResult, glob: Globber, captures: map<string, string>,
                 values: map<string, seq<Token>>, r: Result<string, RouteError>)
    requires IsRouted(instances, Some(decl), patterns, url, run, glob, r)
    requires decl.strategy == "glob_match" && IsFirstMatch(patterns, url, run, Some(captures))
    requires WellFormed(ts) && decl.template == Render(ts) && Tokenized(captures, values) && Harmless(ts, values)
    ensures var out := Render(Substituted(ts, captures, captures.Keys));
            if Leftover(out) then r == Err(UnresolvedPlaceholder)
            else IsFirstOwner(Enabled(instances), decl.configField, out, glob, r)
  {
    var out := TextOf(instances, decl, patterns, url, run, glob, captures, r);
    HarmlessIsSimultaneous(ts, captures, values, out);
  }

  /** Whatever the map order and however the instances' globs match, the result is the same. */
  ghost predicate SameResult(instances: seq<Instance>, decl: RoutingDecl, patterns: seq<string>, url: string,
                             run: (string, string) -> PatternResult)
  {
    forall glob: Globber, r1, r2 ::
      IsRouted(instances, Some(decl), patterns, url, run, glob, r1) &&
          IsRouted(instances, Some(decl), patterns, url, run, glob, r2)
      ==> r1 == r2
  }

  /** Whatever the map order, the text is the same, or it is refused as unresolved. */
  ghost predicate SameText(tpl: string, captures: map<string, string>) {
    forall out1, out2 :: IsFormatted(tpl, captures, out1) && IsFormatted(tpl, captures, out2) ==>
      out1 == out2 || (Leftover(out1) && Leftover(out2))
  }

  /** Two texts of which one is complete: some globs send them different ways. */
  lemma TextsMisroute(instances: seq<Instance>, decl: RoutingDecl, patterns: seq<string>, url: string,
                      run: (string, string) -> PatternResult, captures: map<string, string>, out1: string, out2: string)
      returns (glob: Globber, r1: Result<string, RouteError>, r2: Result<string, RouteError>)
    requires MustRoute(instances) && Globs(Enabled(instances)[0], decl.configField) != []
    requires decl.strategy == "glob_match" && IsFirstMatch(patterns, url, run, Some(captures))
    requires IsFormatted(decl.template, captures, out1) && IsFormatted(decl.template, captures, out2)
    requires out1 != out2 && !Leftover(out1)
    ensures IsRouted(instances, Some(decl), patterns, url, run, glob, r1)
    ensures IsRouted(instances, Some(decl), patterns, url, run, glob, r2)
    ensures r1 != r2
  {
    var enabled := Enabled(instances);
    glob := (pattern: string, value: string) => Some(value == out1);
    r1 := Ok(enabled[0].name);
    r2 := if Leftover(out2) then Err(UnresolvedPlaceholder) else Err(Unrouted);
    assert Owns(enabled[0], decl.configField, out1, glob) by {
      assert glob(Globs(enabled[0], decl.configField)[0], out1) == Some(true);
    }
    assert IsFirstOwner(enabled, decl.configField, out1, glob, r1);
    assert forall j :: 0 <= j < |enabled| ==> !Owns(enabled[j], decl.configField, out2, glob);
  }

  /** Exactly: with a decision to make and a glob to make it by, the map order can never change the
      result if and only if it cannot change a text that gets through the leftover check. */
  lemma SameResultIff(instances: seq<Instance>, decl: RoutingDecl, patterns: seq<string>, url: string,
                      run: (string, string) -> PatternResult, captures: map<string, string>)
    requires MustRoute(instances) && Globs(Enabled(instances)[0], decl.configField) != []
    requires decl.strategy == "glob_match" && IsFirstMatch(patterns, url, run, Some(captures))
    ensures SameResult(instances, decl, patterns, url, run) <==> SameText(decl.template, captures)
  {
    if SameText(decl.template, captures) {
      forall glob: Globber, r1, r2 |
        IsRouted(instances, Some(decl), patterns, url, run, glob, r1) &&
            IsRouted(instances, Some(decl), patterns, url, run, glob, r2)
        ensures r1 == r2
      {
        var out1 := TextOf(instances, decl, patterns, url, run, glob, captures, r1);
        var out2 := TextOf(instances, decl, patterns, url, run, glob, captures, r2);
        if out1 == out2 && !Leftover(out1) {
          FirstOwnerUnique(Enabled(instances), decl.configField, out1, glob, r1, r2);
        }
      }
    } else {
      var out1, out2 :| IsFormatted(decl.template, captures, out1) && IsFormatted(decl.template, captures, out2)
        && out1 != out2 && !(Leftover(out1) && Leftover(out2));
      if !Leftover(out1) {
        var glob, r1, r2 := TextsMisroute(instances, decl, patterns, url, run, captures, out1, out2);
      } else {
        var glob, r1, r2 := TextsMisroute(instances, decl, patterns, url, run, captures, out2, out1);
      }
    }
  }

  /** The text a result came from. */
  lemma TextOf(instances: seq<Instance>, decl: RoutingDecl, patterns: seq<string>, url: string,
               run: (string, string) -> PatternResult, glob: Globber, captures: map<string, string>,
               r: Result<string, RouteError>) returns (out: string)
    requires IsRouted(instances, Some(decl), patterns, url, run, glob, r)
    requires decl.strategy == "glob_match" && IsFirstMatch(patterns, url, run, Some(captures))
    ensures IsFormatted(decl.template, captures, out)
    ensures if Leftover(out) then r == Err(UnresolvedPlaceholder)
            else IsFirstOwner(Enabled(instances), decl.configField, out, glob, r)
  {
    var c;
    c, out :| IsFirstMatch(patterns, url, run, Some(c)) && IsFormatted(decl.template, c, out)
      && if Leftover(out) then r == Err(UnresolvedPlaceholder)
         else IsFirstOwner(Enabled(instances), decl.configField, out, glob, r);
    FirstMatchUnique(patterns, url, run, c, captures);
  }
}
