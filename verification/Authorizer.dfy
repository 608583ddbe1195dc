/**
 Which requests of a workload its access rules permit: the split into read,
 write and log rules, and what the decision means for the parts of the state.
 */
module Authorizer {
  import opened Options
  import opened Sequences

  const PATH_SEPARATOR: char := '.'
  const WILDCARD: char := '*'

  // ---------- Paths and patterns ----------

  type Path = seq<string>
  datatype Section = Wildcard | Text(text: string)
  type Pattern = seq<Section>

  function SplitAtSeparator(s: string): (r: seq<string>)
    ensures r != []
    decreases |s|
  {
    var k := IndexOf(s, PATH_SEPARATOR);
    if k == |s| then [s] else [s[..k]] + SplitAtSeparator(s[k + 1..])
  }

  function ParsePath(s: string): Path {
    if s == "" then [] else SplitAtSeparator(s)
  }

  function ParseSection(s: string): Section {
    if s == [WILDCARD] then Wildcard else Text(s)
  }

  function ParsePattern(s: string): Pattern {
    var sections := ParsePath(s);
    seq(|sections|, i requires 0 <= i < |sections| => ParseSection(sections[i]))
  }

  function Join(sections: seq<string>): string
    requires sections != []
  {
    if |sections| == 1 then sections[0] else sections[0] + [PATH_SEPARATOR] + Join(sections[1..])
  }

  predicate WithoutSeparators(sections: seq<string>) {
    forall i :: 0 <= i < |sections| ==> PATH_SEPARATOR !in sections[i]
  }

  /** A path is cut at every separator and nowhere else: its sections have none, and joined they are the text again. */
  lemma {:induction false} SplitIsJoin(s: string)
    ensures Join(SplitAtSeparator(s)) == s
    ensures WithoutSeparators(SplitAtSeparator(s))
    decreases |s|
  {
    var k := IndexOf(s, PATH_SEPARATOR);
    if k < |s| {
      var head, tail := s[..k], s[k + 1..];
      assert SplitAtSeparator(s) == [head] + SplitAtSeparator(tail) && s == head + [PATH_SEPARATOR] + tail;
      SplitIsJoin(tail);
      hide SplitAtSeparator;
      OneSectionMore(head, SplitAtSeparator(tail));
    }
  }

  lemma OneSectionMore(head: string, sections: seq<string>)
    requires PATH_SEPARATOR !in head && sections != [] && WithoutSeparators(sections)
    ensures WithoutSeparators([head] + sections)
    ensures Join([head] + sections) == head + [PATH_SEPARATOR] + Join(sections)
  {
    assert ([head] + sections)[1..] == sections;
  }

  /** And there is no other way to cut it. */
  lemma {:induction false} JoinIsSplit(sections: seq<string>)
    requires sections != [] && WithoutSeparators(sections)
    ensures SplitAtSeparator(Join(sections)) == sections
  {
    if |sections| == 1 {
      NoSeparator(sections[0]);
      assert sections == [sections[0]];
    } else {
      var head, rest := sections[0], sections[1..];
      assert sections == [head] + rest && PATH_SEPARATOR !in head && WithoutSeparators(rest);
      assert Join(sections) == head + [PATH_SEPARATOR] + Join(rest);
      hide WithoutSeparators, Join, SplitAtSeparator;
      JoinIsSplit(rest);
      CutAtFirst(head, Join(rest));
    }
  }

  lemma NoSeparator(s: string)
    requires PATH_SEPARATOR !in s
    ensures SplitAtSeparator(s) == [s]
  {
    assert IndexOf(s, PATH_SEPARATOR) == |s|;
  }

  lemma CutAtFirst(a: string, b: string)
    requires PATH_SEPARATOR !in a
    ensures SplitAtSeparator(a + [PATH_SEPARATOR] + b) == [a] + SplitAtSeparator(b)
  {
    var s := a + [PATH_SEPARATOR] + b;
    var k := IndexOf(s, PATH_SEPARATOR);
    assert s[|a|] == PATH_SEPARATOR && forall i :: 0 <= i < |a| ==> s[i] == a[i];
    assert k == |a|;
    assert s[..k] == a && s[k + 1..] == b;
  }

  predicate SectionMatches(x: Section, s: string) {
    x.Wildcard? || x.text == s
  }

  /** The sections that both have agree. */
  predicate Agree(p: Pattern, q: Path) {
    forall i :: 0 <= i < |p| && i < |q| ==> SectionMatches(p[i], q[i])
  }

  predicate DenyMatches(p: Pattern, q: Path) {
    p != [] && Agree(p, q)
  }

  predicate AllowMatches(p: Pattern, q: Path) {
    p != [] && (|p| <= |q| || p[0].Wildcard?) && Agree(p, q)
  }

  method MatchRuleWithPath(p: Pattern, q: Path) returns (r: bool)
    ensures r == DenyMatches(p, q)
  {
    if p == [] {
      return false;
    }
    for i := 0 to if |p| < |q| then |p| else |q|
      invariant forall k :: 0 <= k < i ==> SectionMatches(p[k], q[k])
    {
      if !SectionMatches(p[i], q[i]) {
        return false;
      }
    }
    r := true;
  }

  method MatchAllowPattern(p: Pattern, q: Path) returns (r: bool)
    ensures r == AllowMatches(p, q)
  {
    if |p| > |q| && !p[0].Wildcard? {
      return false;
    }
    r := MatchRuleWithPath(p, q);
  }

  // ---------- What a match means for the state below a path ----------

  /** The pattern covers this part of the state: it is a prefix of its path. */
  predicate Covers(p: Pattern, r: Path) {
    p != [] && |p| <= |r| && Agree(p, r)
  }

  /** Section by section: a wildcard, or the very text of the path. */
  lemma CoversIff(p: Pattern, r: Path)
    ensures Covers(p, r) <==>
            0 < |p| <= |r| && forall i :: 0 <= i < |p| ==> p[i] == Wildcard || p[i] == Text(r[i])
  {
  }

  /** A rule as it is written covers a path if its sections do, where the section "*" stands for any text. */
  lemma WrittenRuleCovers(sections: seq<string>, r: Path)
    requires sections != [] && WithoutSeparators(sections) && Join(sections) != ""
    ensures Covers(ParsePattern(Join(sections)), r) <==>
            |sections| <= |r| && forall i :: 0 <= i < |sections| ==> sections[i] == "*" || sections[i] == r[i]
  {
    JoinIsSplit(sections);
    var p := ParsePattern(Join(sections));
    assert forall i :: 0 <= i < |sections| ==> p[i] == ParseSection(sections[i]);
    CoversIff(p, r);
  }

  /** Everything below the path is covered; the empty path is no part of the state itself. */
  ghost predicate CoversBelow(p: Pattern, q: Path) {
    forall r :: q <= r && r != [] ==> Covers(p, r)
  }

  function Complete(p: Pattern, q: Path): Path
    decreases |p| - |q|
  {
    if |p| <= |q| then q
    else Complete(p, q + [if p[|q|].Wildcard? then "" else p[|q|].text])
  }

  lemma {:induction false} CompleteCovered(p: Pattern, q: Path)
    requires DenyMatches(p, q)
    ensures q <= Complete(p, q) && Covers(p, Complete(p, q))
    decreases |p| - |q|
  {
    if |p| > |q| {
      CompleteCovered(p, q + [if p[|q|].Wildcard? then "" else p[|q|].text]);
    }
  }

  /** A deny pattern matches exactly when it covers something below the path. */
  lemma DenyMatchesIffOverlap(p: Pattern, q: Path)
    ensures DenyMatches(p, q) <==> exists r :: q <= r && Covers(p, r)
  {
    if DenyMatches(p, q) {
      CompleteCovered(p, q);
    }
    if r :| q <= r && Covers(p, r) {
      assert forall i :: 0 <= i < |q| ==> q[i] == r[i];
    }
  }

  /** A pattern that begins with a wildcard and goes on. */
  predicate OpenAtTop(p: Pattern) {
    |p| > 1 && p[0].Wildcard?
  }

  lemma CoversBelowMatches(p: Pattern, q: Path)
    requires CoversBelow(p, q)
    ensures AllowMatches(p, q)
  {
    if q != [] {
      assert Covers(p, q);
    } else {
      var other := if p != [] && p[0].Text? then p[0].text + "x" else "";
      assert q <= [other] && Covers(p, [other]);
      assert SectionMatches(p[0], [other][0]);
    }
  }

  lemma MatchCoversBelow(p: Pattern, q: Path)
    requires AllowMatches(p, q) && !OpenAtTop(p)
    ensures CoversBelow(p, q)
  {
    forall r | q <= r && r != []
      ensures Covers(p, r)
    {
      assert forall i :: 0 <= i < |q| ==> q[i] == r[i];
    }
  }

  /** An allow pattern grants exactly what it covers, unless it begins with a wildcard and goes on. */
  lemma AllowMeansCoverageIff(p: Pattern)
    ensures (forall q :: AllowMatches(p, q) <==> CoversBelow(p, q)) <==> !OpenAtTop(p)
  {
    if OpenAtTop(p) {
      assert AllowMatches(p, []);
      assert [] <= ["x"] && !Covers(p, ["x"]);
      assert !CoversBelow(p, []);
    } else {
      forall q
        ensures AllowMatches(p, q) <==> CoversBelow(p, q)
      {
        if AllowMatches(p, q) {
          MatchCoversBelow(p, q);
        }
        if CoversBelow(p, q) {
          CoversBelowMatches(p, q);
        }
      }
    }
  }

  /** The rule for "*.a" lets a request for the complete state pass, which it does not cover. */
  lemma ExampleOpenAtTop()
    ensures AllowMatches([Wildcard, Text("a")], []) && !CoversBelow([Wildcard, Text("a")], [])
  {
    AllowMeansCoverageIff([Wildcard, Text("a")]);
    assert [] <= ["x"] && !Covers([Wildcard, Text("a")], ["x"]);
  }

  // ---------- Rules ----------

  datatype Operation = RwNothing | RwRead | RwWrite | RwReadWrite
  datatype Rule = StateRule(operation: Operation, masks: seq<string>) | LogRule(names: seq<string>)
  datatype Access = Access(allow: seq<Rule>, deny: seq<Rule>)

  datatype SplitRules = SplitRules(read: seq<seq<Pattern>>, write: seq<seq<Pattern>>, log: seq<seq<string>>)
  datatype Authorizer = Authorizer(allow: SplitRules, deny: SplitRules)

  function ParseMasks(masks: seq<string>): seq<Pattern> {
    seq(|masks|, i requires 0 <= i < |masks| => ParsePattern(masks[i]))
  }

  /** A state rule for reading, or for writing. */
  predicate Applies(rule: Rule, write: bool) {
    && rule.StateRule?
    && (rule.operation.RwReadWrite? || (if write then rule.operation.RwWrite? else rule.operation.RwRead?))
  }

  function StateRules(rules: seq<Rule>, write: bool): seq<seq<Pattern>> {
    if rules == [] then []
    else
      var rest, rule := StateRules(rules[..|rules| - 1], write), rules[|rules| - 1];
      if Applies(rule, write) then rest + [ParseMasks(rule.masks)] else rest
  }

  function LogRules(rules: seq<Rule>): seq<seq<string>> {
    if rules == [] then []
    else
      var rest, rule := LogRules(rules[..|rules| - 1]), rules[|rules| - 1];
      if rule.LogRule? then rest + [rule.names] else rest
  }

  method Split(rules: seq<Rule>) returns (r: SplitRules)
    ensures r == SplitRules(StateRules(rules, false), StateRules(rules, true), LogRules(rules))
  {
    var read, write, log := [], [], [];
    for i := 0 to |rules|
      invariant read == StateRules(rules[..i], false) && write == StateRules(rules[..i], true)
      invariant log == LogRules(rules[..i])
    {
      assert rules[..i + 1][..i] == rules[..i];
      match rules[i]
      case StateRule(operation, masks) =>
        var rule := ParseMasks(masks);
        match operation {
          case RwRead => read := read + [rule];
          case RwWrite => write := write + [rule];
          case RwReadWrite =>
            read := read + [rule];
            write := write + [rule];
          case RwNothing =>
        }
      case LogRule(names) => log := log + [names];
    }
    assert rules[..|rules|] == rules;
    r := SplitRules(read, write, log);
  }

  function FromAccess(access: Access): Authorizer {
    Authorizer.Authorizer(
      SplitRules(StateRules(access.allow, false), StateRules(access.allow, true), LogRules(access.allow)),
      SplitRules(StateRules(access.deny, false), StateRules(access.deny, true), LogRules(access.deny)))
  }

  lemma {:induction false} StateRulesMembers(rules: seq<Rule>, write: bool, ps: seq<Pattern>)
    ensures ps in StateRules(rules, write) <==>
            exists rule :: rule in rules && Applies(rule, write) && ps == ParseMasks(rule.masks)
  {
    if rules != [] {
      var init, last := rules[..|rules| - 1], rules[|rules| - 1];
      StateRulesMembers(init, write, ps);
      assert rules == init + [last];
    }
  }

  lemma {:induction false} LogRulesMembers(rules: seq<Rule>, names: seq<string>)
    ensures names in LogRules(rules) <==> LogRule(names) in rules
  {
    if rules != [] {
      var init, last := rules[..|rules| - 1], rules[|rules| - 1];
      LogRulesMembers(init, names);
      assert rules == init + [last];
    }
  }

  // ---------- The decision ----------

  datatype RequestContent =
    | CompleteStateRequest(fieldMask: seq<string>)
    | UpdateStateRequest(updateMask: seq<string>)
    | LogsRequest(workloadNames: seq<string>)
    | LogsCancelRequest
    | EventsCancelRequest

  predicate AnyAllow(rules: seq<seq<Pattern>>, q: Path) {
    exists ps, p :: ps in rules && p in ps && AllowMatches(p, q)
  }

  predicate AnyDeny(rules: seq<seq<Pattern>>, q: Path) {
    exists ps, p :: ps in rules && p in ps && DenyMatches(p, q)
  }

  predicate CheckStateRules(mask: seq<string>, allow: seq<seq<Pattern>>, deny: seq<seq<Pattern>>) {
    var elements := if mask == [] then [""] else mask;
    forall m :: m in elements ==> AnyAllow(allow, ParsePath(m)) && !AnyDeny(deny, ParsePath(m))
  }

  predicate AnyLogRule(rules: seq<seq<string>>, n: string) {
    exists names :: names in rules && LogRuleMatches(names, n)
  }

  predicate Authorize(a: Authorizer, content: Option<RequestContent>) {
    match content
    case None => false
    case Some(CompleteStateRequest(mask)) => CheckStateRules(mask, a.allow.read, a.deny.read)
    case Some(UpdateStateRequest(mask)) => CheckStateRules(mask, a.allow.write, a.deny.write)
    case Some(LogsRequest(names)) => forall n :: n in names ==> AnyLogRule(a.allow.log, n) && !AnyLogRule(a.deny.log, n)
    case Some(LogsCancelRequest) => true
    case Some(EventsCancelRequest) => true
  }

  /** The parts of the state a list of rules speaks about, for reading or writing. */
  ghost predicate HasPattern(rules: seq<Rule>, write: bool, p: Pattern) {
    exists rule, mask :: rule in rules && Applies(rule, write) && mask in rule.masks && p == ParsePattern(mask)
  }

  ghost predicate GrantedBy(access: Access, write: bool, q: Path) {
    && (exists p :: HasPattern(access.allow, write, p) && AllowMatches(p, q))
    && (forall p :: HasPattern(access.deny, write, p) ==> !DenyMatches(p, q))
  }

  /** The decision said directly about the rules as they were written. */
  ghost predicate Permitted(access: Access, content: Option<RequestContent>) {
    match content
    case None => false
    case Some(CompleteStateRequest(mask)) =>
      if mask == [] then GrantedBy(access, false, [])
      else forall m :: m in mask ==> GrantedBy(access, false, ParsePath(m))
    case Some(UpdateStateRequest(mask)) =>
      if mask == [] then GrantedBy(access, true, [])
      else forall m :: m in mask ==> GrantedBy(access, true, ParsePath(m))
    case Some(LogsRequest(names)) =>
      forall n :: n in names ==>
        && (exists ps :: LogRule(ps) in access.allow && LogRuleMatches(ps, n))
        && (forall ps :: LogRule(ps) in access.deny ==> !LogRuleMatches(ps, n))
    case Some(LogsCancelRequest) => true
    case Some(EventsCancelRequest) => true
  }

  lemma PatternInSplit(rules: seq<Rule>, write: bool, p: Pattern)
    ensures HasPattern(rules, write, p) <==> exists ps :: ps in StateRules(rules, write) && p in ps
  {
    if rule, mask :| rule in rules && Applies(rule, write) && mask in rule.masks && p == ParsePattern(mask) {
      StateRulesMembers(rules, write, ParseMasks(rule.masks));
      var i :| 0 <= i < |rule.masks| && rule.masks[i] == mask;
      assert ParseMasks(rule.masks)[i] == p;
    }
    if ps :| ps in StateRules(rules, write) && p in ps {
      StateRulesMembers(rules, write, ps);
      var rule :| rule in rules && Applies(rule, write) && ps == ParseMasks(rule.masks);
      var i :| 0 <= i < |ps| && ps[i] == p;
      assert rule.masks[i] in rule.masks;
    }
  }

  lemma GrantedAsSplit(access: Access, write: bool, q: Path)
    ensures GrantedBy(access, write, q) <==>
            AnyAllow(StateRules(access.allow, write), q) && !AnyDeny(StateRules(access.deny, write), q)
  {
    forall p
      ensures HasPattern(access.allow, write, p) <==> exists ps :: ps in StateRules(access.allow, write) && p in ps
      ensures HasPattern(access.deny, write, p) <==> exists ps :: ps in StateRules(access.deny, write) && p in ps
    {
      PatternInSplit(access.allow, write, p);
      PatternInSplit(access.deny, write, p);
    }
    hide StateRules, HasPattern;
    if GrantedBy(access, write, q) {
      var p :| HasPattern(access.allow, write, p) && AllowMatches(p, q);
      var ps :| ps in StateRules(access.allow, write) && p in ps;
    }
  }

  /** The split lists decide exactly as the rules as written. */
  lemma AuthorizeIsPermitted(access: Access, content: Option<RequestContent>)
    ensures Authorize(FromAccess(access), content) <==> Permitted(access, content)
  {
    hide AnyAllow, AnyDeny, GrantedBy, StateRules, LogRuleMatches;
    forall write, q
      ensures GrantedBy(access, write, q) <==>
              AnyAllow(StateRules(access.allow, write), q) && !AnyDeny(StateRules(access.deny, write), q)
    {
      GrantedAsSplit(access, write, q);
    }
    forall names
      ensures names in LogRules(access.allow) <==> LogRule(names) in access.allow
      ensures names in LogRules(access.deny) <==> LogRule(names) in access.deny
    {
      LogRulesMembers(access.allow, names);
      LogRulesMembers(access.deny, names);
    }
    assert ParsePath("") == [];
  }

  // ---------- Reading and writing ----------

  /** A rule with one of the operations has an entry that grants access to the path. */
  ghost predicate SomeRuleAllows(rules: seq<Rule>, operations: set<Operation>, q: Path) {
    exists operation, masks, text ::
      && StateRule(operation, masks) in rules && operation in operations
      && text in masks && AllowMatches(ParsePattern(text), q)
  }

  ghost predicate SomeRuleDenies(rules: seq<Rule>, operations: set<Operation>, q: Path) {
    exists operation, masks, text ::
      && StateRule(operation, masks) in rules && operation in operations
      && text in masks && DenyMatches(ParsePattern(text), q)
  }

  lemma RulesFor(rules: seq<Rule>, write: bool, operations: set<Operation>, q: Path)
    requires operations == if write then {RwWrite, RwReadWrite} else {RwRead, RwReadWrite}
    ensures AnyAllow(StateRules(rules, write), q) <==> SomeRuleAllows(rules, operations, q)
    ensures AnyDeny(StateRules(rules, write), q) <==> SomeRuleDenies(rules, operations, q)
  {
    forall p
      ensures HasPattern(rules, write, p) <==> exists ps :: ps in StateRules(rules, write) && p in ps
    {
      PatternInSplit(rules, write, p);
    }
    forall operation, masks, text | StateRule(operation, masks) in rules && operation in operations && text in masks
      ensures HasPattern(rules, write, ParsePattern(text))
    {
      assert Applies(StateRule(operation, masks), write);
    }
    hide StateRules, ParsePattern, AllowMatches, DenyMatches;
    forall p | HasPattern(rules, write, p)
      ensures exists operation, masks, text ::
                StateRule(operation, masks) in rules && operation in operations && text in masks
                && ParsePattern(text) == p
    {
      var rule, mask :| rule in rules && Applies(rule, write) && mask in rule.masks && p == ParsePattern(mask);
      assert StateRule(rule.operation, rule.masks) in rules;
    }
  }

  /** A request for the state needs a rule for reading, an update one for writing; the deny rules count alike. */
  lemma ReadAndWriteRules(access: Access, mask: seq<string>)
    ensures var elements := if mask == [] then [""] else mask;
            && (Authorize(FromAccess(access), Some(CompleteStateRequest(mask))) <==>
                forall m :: m in elements ==> SomeRuleAllows(access.allow, {RwRead, RwReadWrite}, ParsePath(m))
                                              && !SomeRuleDenies(access.deny, {RwRead, RwReadWrite}, ParsePath(m)))
            && (Authorize(FromAccess(access), Some(UpdateStateRequest(mask))) <==>
                forall m :: m in elements ==> SomeRuleAllows(access.allow, {RwWrite, RwReadWrite}, ParsePath(m))
                                              && !SomeRuleDenies(access.deny, {RwWrite, RwReadWrite}, ParsePath(m)))
  {
    hide AnyAllow, AnyDeny, SomeRuleAllows, SomeRuleDenies, StateRules, ParsePath;
    forall q
      ensures AnyAllow(StateRules(access.allow, false), q) <==> SomeRuleAllows(access.allow, {RwRead, RwReadWrite}, q)
      ensures AnyDeny(StateRules(access.deny, false), q) <==> SomeRuleDenies(access.deny, {RwRead, RwReadWrite}, q)
      ensures AnyAllow(StateRules(access.allow, true), q) <==> SomeRuleAllows(access.allow, {RwWrite, RwReadWrite}, q)
      ensures AnyDeny(StateRules(access.deny, true), q) <==> SomeRuleDenies(access.deny, {RwWrite, RwReadWrite}, q)
    {
      RulesFor(access.allow, false, {RwRead, RwReadWrite}, q);
      RulesFor(access.deny, false, {RwRead, RwReadWrite}, q);
      RulesFor(access.allow, true, {RwWrite, RwReadWrite}, q);
      RulesFor(access.deny, true, {RwWrite, RwReadWrite}, q);
    }
  }

  lemma MatchesItself(s: string)
    requires s != ""
    ensures AllowMatches(ParsePattern(s), ParsePath(s))
  {
  }

  lemma LoneRule(operation: Operation, masks: seq<string>, operations: set<Operation>, asked: seq<string>)
    ensures var elements, rules := if asked == [] then [""] else asked, [StateRule(operation, masks)];
            && (operation !in operations ==> forall q :: !SomeRuleAllows(rules, operations, q))
            && (operation in operations && asked != [] && (forall s :: s in asked ==> s in masks && s != "") ==>
                forall m :: m in elements ==> SomeRuleAllows(rules, operations, ParsePath(m)))
    ensures forall q :: !SomeRuleDenies([], operations, q)
  {
    hide ParsePath, ParsePattern, AllowMatches, DenyMatches;
    var elements, rule := if asked == [] then [""] else asked, StateRule(operation, masks);
    assert rule in [rule];
    forall s | s in masks && s != ""
      ensures AllowMatches(ParsePattern(s), ParsePath(s))
    {
      MatchesItself(s);
    }
  }

  /** Who may only read never writes, and may read what the rule names; the same the other way round. */
  lemma ReadersDoNotWrite(masks: seq<string>, asked: seq<string>)
    ensures var reader := FromAccess(Access([StateRule(RwRead, masks)], []));
            && !Authorize(reader, Some(UpdateStateRequest(asked)))
            && (asked != [] && (forall s :: s in asked ==> s in masks && s != "") ==>
                Authorize(reader, Some(CompleteStateRequest(asked))))
    ensures var writer := FromAccess(Access([StateRule(RwWrite, masks)], []));
            && !Authorize(writer, Some(CompleteStateRequest(asked)))
            && (asked != [] && (forall s :: s in asked ==> s in masks && s != "") ==>
                Authorize(writer, Some(UpdateStateRequest(asked))))
  {
    hide Authorize, ParsePath, FromAccess, SomeRuleAllows, SomeRuleDenies;
    ReadAndWriteRules(Access([StateRule(RwRead, masks)], []), asked);
    ReadAndWriteRules(Access([StateRule(RwWrite, masks)], []), asked);
    LoneRule(RwRead, masks, {RwRead, RwReadWrite}, asked);
    LoneRule(RwRead, masks, {RwWrite, RwReadWrite}, asked);
    LoneRule(RwWrite, masks, {RwRead, RwReadWrite}, asked);
    LoneRule(RwWrite, masks, {RwWrite, RwReadWrite}, asked);
    var m := (if asked == [] then [""] else asked)[0];
    assert m in (if asked == [] then [""] else asked);
    assert !SomeRuleAllows([StateRule(RwRead, masks)], {RwWrite, RwReadWrite}, ParsePath(m));
    assert !SomeRuleAllows([StateRule(RwWrite, masks)], {RwRead, RwReadWrite}, ParsePath(m));
  }

  /** Building the authorizer loses nothing of the rules: it permits what they say. */
  method CreateAuthorizer(access: Access) returns (a: Authorizer)
    ensures forall content :: Authorize(a, content) <==> Permitted(access, content)
  {
    var allow := Split(access.allow);
    var deny := Split(access.deny);
    a := Authorizer.Authorizer(allow, deny);
    forall content
      ensures Authorize(a, content) <==> Permitted(access, content)
    {
      AuthorizeIsPermitted(access, content);
    }
  }

  /** Every rule that is not for nothing is also in the other list; order and repetition do not count. */
  ghost predicate Included(a: seq<Rule>, b: seq<Rule>) {
    forall rule :: rule in a && !(rule.StateRule? && rule.operation.RwNothing?) ==> rule in b
  }

  lemma GrantedGrows(x: Access, y: Access, write: bool, q: Path)
    requires Included(x.allow, y.allow) && Included(y.deny, x.deny) && GrantedBy(x, write, q)
    ensures GrantedBy(y, write, q)
  {
    forall p
      ensures HasPattern(x.allow, write, p) ==> HasPattern(y.allow, write, p)
      ensures HasPattern(y.deny, write, p) ==> HasPattern(x.deny, write, p)
    {
    }
  }

  /** More allow rules and fewer deny rules never refuse what was permitted. */
  lemma PermittedGrows(x: Access, y: Access, content: Option<RequestContent>)
    requires Included(x.allow, y.allow) && Included(y.deny, x.deny) && Permitted(x, content)
    ensures Permitted(y, content)
  {
    hide GrantedBy, LogRuleMatches;
    forall write, q | GrantedBy(x, write, q)
      ensures GrantedBy(y, write, q)
    {
      GrantedGrows(x, y, write, q);
    }
  }

  /** Neither the order of the rules nor rules for nothing change a decision. */
  lemma OnlyTheRulesCount(x: Access, y: Access, content: Option<RequestContent>)
    requires Included(x.allow, y.allow) && Included(y.allow, x.allow)
    requires Included(x.deny, y.deny) && Included(y.deny, x.deny)
    ensures Permitted(x, content) <==> Permitted(y, content)
  {
    if Permitted(x, content) {
      PermittedGrows(x, y, content);
    }
    if Permitted(y, content) {
      PermittedGrows(y, x, content);
    }
  }

  /** What a match with an allow pattern grants, for all patterns. */
  lemma AllowMatchesIff(p: Pattern, q: Path)
    ensures AllowMatches(p, q) <==> CoversBelow(p, q) || (OpenAtTop(p) && |q| < |p| && Agree(p, q))
  {
    if CoversBelow(p, q) {
      CoversBelowMatches(p, q);
    }
    if AllowMatches(p, q) && |p| <= |q| {
      forall r | q <= r && r != []
        ensures Covers(p, r)
      {
        assert forall i :: 0 <= i < |q| ==> q[i] == r[i];
      }
    }
    if AllowMatches(p, q) && !OpenAtTop(p) {
      MatchCoversBelow(p, q);
    }
  }

  /**
   Access to a path is access to all of the state below it: one rule covers that, or
   begins with a wildcard and agrees with a shorter path, and no deny rule covers any
   of it.
   */
  lemma GrantIsForTheWholeSubtree(access: Access, write: bool, q: Path)
    ensures GrantedBy(access, write, q) <==>
            && (exists p :: HasPattern(access.allow, write, p)
                            && (CoversBelow(p, q) || (OpenAtTop(p) && |q| < |p| && Agree(p, q))))
            && (forall p, r :: HasPattern(access.deny, write, p) && q <= r ==> !Covers(p, r))
  {
    hide HasPattern, AllowMatches, DenyMatches, CoversBelow, Covers, OpenAtTop, Agree;
    forall p
      ensures AllowMatches(p, q) <==> CoversBelow(p, q) || (OpenAtTop(p) && |q| < |p| && Agree(p, q))
    {
      AllowMatchesIff(p, q);
    }
    forall p
      ensures DenyMatches(p, q) <==> exists r :: q <= r && Covers(p, r)
    {
      DenyMatchesIffOverlap(p, q);
    }
  }

  // ---------- Log rules ----------

  function Before(p: string): string {
    p[..IndexOf(p, WILDCARD)]
  }

  function Behind(p: string): string {
    var k := IndexOf(p, WILDCARD);
    if k < |p| then p[k + 1..] else ""
  }

  predicate EndsWith(s: string, t: string) {
    |t| <= |s| && s[|s| - |t|..] == t
  }

  predicate FitsWildcard(p: string, n: string) {
    Before(p) <= n && EndsWith(n, Behind(p)) && |Before(p)| + |Behind(p)| <= |n|
  }

  /** The wildcard stands for any text in its place, also for none. */
  lemma FitsWildcardIff(a: string, b: string, n: string)
    requires WILDCARD !in a
    ensures FitsWildcard(a + "*" + b, n) <==> exists m :: n == a + m + b
  {
    PartsOf(a, b);
    hide Before, Behind;
    if FitsWildcard(a + "*" + b, n) {
      var m := n[|a|..|n| - |b|];
      assert n == a + m + b;
    }
    if m :| n == a + m + b {
      assert n == a + (m + b) && n[|n| - |b|..] == b;
    }
  }

  lemma PartsOf(a: string, b: string)
    requires WILDCARD !in a
    ensures Before(a + "*" + b) == a && Behind(a + "*" + b) == b
  {
    var p := a + "*" + b;
    assert p[|a|] == WILDCARD && forall i :: 0 <= i < |a| ==> p[i] == a[i];
    assert IndexOf(p, WILDCARD) == |a|;
  }

  /** The names an entry of a log rule stands for. */
  predicate Fits(p: string, n: string) {
    if WILDCARD in p then FitsWildcard(p, n) else p == n
  }

  /** As the loop decides: the first entry with a wildcard has the last word. */
  predicate LogRuleMatches(patterns: seq<string>, n: string) {
    if patterns == [] then false
    else if patterns[0] == n || patterns[0] == [WILDCARD] then true
    else if WILDCARD in patterns[0] then FitsWildcard(patterns[0], n)
    else LogRuleMatches(patterns[1..], n)
  }

  method MatchLogRule(patterns: seq<string>, n: string) returns (r: bool)
    ensures r == LogRuleMatches(patterns, n)
  {
    assert patterns[0..] == patterns;
    for i := 0 to |patterns|
      invariant LogRuleMatches(patterns, n) == LogRuleMatches(patterns[i..], n)
    {
      var pattern := patterns[i];
      assert patterns[i..][1..] == patterns[i + 1..];
      if pattern == n || pattern == [WILDCARD] {
        return true;
      } else if WILDCARD in pattern {
        var k := IndexOf(pattern, WILDCARD);
        return pattern[..k] <= n && EndsWith(n, pattern[k + 1..]) && |pattern[..k]| + |pattern[k + 1..]| <= |n|;
      }
    }
    r := false;
  }

  function FirstWildcard(patterns: seq<string>): (k: nat)
    ensures k <= |patterns| && (forall i :: 0 <= i < k ==> WILDCARD !in patterns[i])
    ensures k < |patterns| ==> WILDCARD in patterns[k]
  {
    if patterns == [] || WILDCARD in patterns[0] then 0 else 1 + FirstWildcard(patterns[1..])
  }

  lemma SelfFits(p: string)
    requires WILDCARD in p
    ensures FitsWildcard(p, p) && (p == [WILDCARD] ==> forall n :: FitsWildcard(p, n))
  {
    var k := IndexOf(p, WILDCARD);
    assert k < |p| && Before(p) == p[..k] && Behind(p) == p[k + 1..];
    assert p[..k] <= p && p[|p| - |Behind(p)|..] == p[k + 1..];
    if p == [WILDCARD] {
      assert k == 0 && Before(p) == "" && Behind(p) == "";
    }
  }

  lemma {:induction false} LogRuleDecides(patterns: seq<string>, n: string)
    ensures var k := FirstWildcard(patterns);
            LogRuleMatches(patterns, n) <==> n in patterns[..k] || (k < |patterns| && FitsWildcard(patterns[k], n))
  {
    if patterns != [] {
      if WILDCARD in patterns[0] {
        SelfFits(patterns[0]);
      } else {
        LogRuleDecides(patterns[1..], n);
        var k := FirstWildcard(patterns);
        assert patterns[..k] == [patterns[0]] + patterns[1..][..k - 1];
      }
    }
  }

  /** The later entry adds no name to those before it. */
  predicate Subsumed(earlier: seq<string>, wild: string, q: string) {
    if WILDCARD in q then Before(wild) <= Before(q) && EndsWith(Behind(q), Behind(wild))
    else q in earlier || FitsWildcard(wild, q)
  }

  predicate LaterAddNothing(patterns: seq<string>) {
    var k := FirstWildcard(patterns);
    forall i :: k < i < |patterns| ==> Subsumed(patterns[..k], patterns[k], patterns[i])
  }

  lemma SubsumedFits(earlier: seq<string>, wild: string, q: string, n: string)
    requires Subsumed(earlier, wild, q) && Fits(q, n)
    ensures n in earlier || FitsWildcard(wild, n)
  {
    if WILDCARD in q {
      var t, s := Behind(q), Behind(wild);
      assert n[|n| - |t|..] == t && t[|t| - |s|..] == s;
      assert n[|n| - |s|..] == n[|n| - |t|..][|t| - |s|..];
    }
  }

  function Repeat(c: char, m: nat): string {
    seq(m, i => c)
  }

  function Longest(names: seq<string>): (m: nat)
    ensures forall n :: n in names ==> |n| <= m
  {
    if names == [] then 0
    else
      assert names == [names[0]] + names[1..];
      var rest := Longest(names[1..]);
      if |names[0]| > rest then |names[0]| else rest
  }

  function Other(c: char): (r: char)
    ensures r != c
  {
    if c == 'x' then 'y' else 'x'
  }

  /** A name of q that neither the earlier names nor the deciding entry know. */
  lemma NotSubsumed(earlier: seq<string>, wild: string, q: string) returns (n: string)
    requires !Subsumed(earlier, wild, q)
    ensures Fits(q, n) && n !in earlier && !FitsWildcard(wild, n)
  {
    if WILDCARD !in q {
      n := q;
    } else {
      var m := Longest(earlier) + 1;
      var c := if !(Before(wild) <= Before(q)) then BreakBefore(Before(wild), Before(q))
               else BreakBehind(Behind(wild), Behind(q));
      n := Before(q) + Repeat(c, m) + Behind(q);
      assert |n| > Longest(earlier);
      if !(Before(wild) <= Before(q)) {
        BrokenBefore(Before(wild), Before(q), m, Behind(q));
      } else {
        BrokenBehind(Behind(wild), Behind(q), m, Before(q));
      }
    }
  }

  function BreakBefore(a: string, b: string): char {
    if |a| > |b| then Other(a[|b|]) else 'x'
  }

  function BreakBehind(a: string, b: string): char {
    if |a| > |b| then Other(a[|a| - |b| - 1]) else 'x'
  }

  lemma BrokenBefore(a: string, b: string, m: nat, rest: string)
    requires m > 0 && !(a <= b)
    ensures !(a <= b + Repeat(BreakBefore(a, b), m) + rest)
  {
    var n := b + Repeat(BreakBefore(a, b), m) + rest;
    if |a| > |b| {
      assert n[|b|] == BreakBefore(a, b);
    } else {
      assert n[..|a|] == b[..|a|];
    }
  }

  lemma BrokenBehind(a: string, b: string, m: nat, front: string)
    requires m > 0 && !EndsWith(b, a)
    ensures !EndsWith(front + Repeat(BreakBehind(a, b), m) + b, a)
  {
    var n := front + Repeat(BreakBehind(a, b), m) + b;
    if |a| > |b| {
      assert n[|n| - |b| - 1] == BreakBehind(a, b);
      assert |a| <= |n| ==> n[|n| - |a|..][|a| - |b| - 1] == n[|n| - |b| - 1];
    } else {
      assert n[|n| - |a|..] == b[|b| - |a|..];
    }
  }

  /**
   A log rule permits the names of all its entries if and only if the entries
   behind the first one with a wildcard add nothing: the loop never gets there.
   */
  lemma LogRuleIsAnyEntryIff(patterns: seq<string>)
    ensures (forall n :: LogRuleMatches(patterns, n) <==> exists p :: p in patterns && Fits(p, n))
            <==> LaterAddNothing(patterns)
  {
    var k := FirstWildcard(patterns);
    if LaterAddNothing(patterns) {
      forall n
        ensures LogRuleMatches(patterns, n) <==> exists p :: p in patterns && Fits(p, n)
      {
        LogRuleDecides(patterns, n);
        EntriesCovered(patterns, n);
      }
    } else {
      var i :| k < i < |patterns| && !Subsumed(patterns[..k], patterns[k], patterns[i]);
      var n := NotSubsumed(patterns[..k], patterns[k], patterns[i]);
      LogRuleDecides(patterns, n);
      assert patterns[i] in patterns && Fits(patterns[i], n);
    }
  }

  lemma EntriesCovered(patterns: seq<string>, n: string)
    requires LaterAddNothing(patterns)
    ensures var k := FirstWildcard(patterns);
            n in patterns[..k] || (k < |patterns| && FitsWildcard(patterns[k], n)) <==>
            exists p :: p in patterns && Fits(p, n)
  {
    hide FitsWildcard, Subsumed;
    var k := FirstWildcard(patterns);
    if p :| p in patterns && Fits(p, n) {
      var i :| 0 <= i < |patterns| && patterns[i] == p;
      if i > k {
        SubsumedFits(patterns[..k], patterns[k], p, n);
      } else if i < k {
        assert patterns[..k][i] == n;
      }
    }
    if n in patterns[..k] {
      var i :| 0 <= i < k && patterns[..k][i] == n;
      assert patterns[i] in patterns && Fits(patterns[i], n);
    }
    if k < |patterns| && FitsWildcard(patterns[k], n) {
      assert patterns[k] in patterns && Fits(patterns[k], n);
    }
  }

  /** In the rule for "a*" and "b" the second entry is ignored. */
  lemma ExampleLaterEntryIgnored()
    ensures !LogRuleMatches(["a*", "b"], "b") && Fits("b", "b")
  {
    assert IndexOf("a*", WILDCARD) == 1 by {
      assert "a*"[0] == 'a' && "a*"[1] == '*';
    }
  }
}
