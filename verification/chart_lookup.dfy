// Finding the schema of an account: the walk from the root that its segments spell.
module ChartLookup {
  import opened Wrappers
  import opened Charts
  import opened ChartRoundTrip

  // Cutting a text at every colon.
  function Split(s: string): (r: seq<string>)
    ensures r != []
  {
    if s == "" then [""]
    else if s[0] == ':' then [""] + Split(s[1..])
    else
      var rest := Split(s[1..]);
      [[s[0]] + rest[0]] + rest[1..]
  }

  function Join(parts: seq<string>): string
    requires parts != []
  {
    if |parts| == 1 then parts[0] else parts[0] + ":" + Join(parts[1..])
  }

  lemma {:induction false} JoinSplit(s: string)
    ensures Join(Split(s)) == s
    ensures forall p :: p in Split(s) ==> ':' !in p
  {
    if s != "" {
      JoinSplit(s[1..]);
      var rest := Split(s[1..]);
      assert s == [s[0]] + s[1..];
      if s[0] == ':' {
        assert ([""] + rest)[1..] == rest;
      } else {
        var r := [[s[0]] + rest[0]] + rest[1..];
        assert r[1..] == rest[1..];
        JoinBehind([s[0]], rest);
      }
    }
  }

  lemma {:induction false} JoinBehind(first: string, parts: seq<string>)
    requires parts != []
    ensures Join([first + parts[0]] + parts[1..]) == first + Join(parts)
  {
    var r := [first + parts[0]] + parts[1..];
    assert r[1..] == parts[1..];
    if |parts| > 1 {
      assert first + parts[0] + ":" + Join(parts[1..]) == first + (parts[0] + ":" + Join(parts[1..]));
    }
  }

  // The first parts, joined, are where the text starts.
  lemma {:induction false} JoinPrefix(parts: seq<string>, k: nat)
    requires 0 < k <= |parts|
    ensures Join(parts[..k]) <= Join(parts)
  {
    if k == 1 {
      assert parts[..1] == [parts[0]];
    } else {
      JoinPrefix(parts[1..], k - 1);
      assert parts[..k][1..] == parts[1..][..k - 1];
    }
  }

  datatype LookupError =
    | InvalidAccount(path: seq<string>, segment: string, patternMismatch: bool, hasSubsegments: bool)
    | InvalidPattern(pattern: string)

  // The end of a walk, or the next step of it. One choice is made for each segment: a
  // fixed segment of that name if there is one, the variable segment otherwise.
  function FindIn(e: Engine, path: seq<string>, node: Segment, account: seq<string>): Result<Account, LookupError>
    requires account != []
    decreases |account|
  {
    var next := account[0];
    if next in node.fixed then Descend(e, path, node.fixed[next], account)
    else if node.variable.None? then Err(InvalidAccount(path, next, false, |account| > 1))
    else
      var variable := node.variable.value;
      if variable.pattern.Some? && !e.compiles(variable.pattern.value) then Err(InvalidPattern(variable.pattern.value))
      else if variable.pattern.Some? && !e.matches(variable.pattern.value, next) then
        Err(InvalidAccount(path, next, true, |account| > 1))
      else Descend(e, path, variable.segment, account)
  }

  function Descend(e: Engine, path: seq<string>, child: Segment, account: seq<string>): Result<Account, LookupError>
    requires account != []
    decreases |account|, 0
  {
    if |account| > 1 then FindIn(e, path + [account[0]], child, account[1..])
    else if child.account.Some? then Ok(child.account.value)
    else Err(InvalidAccount(path, account[0], false, false))
  }

  function Root(c: Chart): Segment {
    Segment(None, c, None)
  }

  function FindAccountSchema(e: Engine, c: Chart, account: string): Result<Account, LookupError> {
    FindIn(e, [], Root(c), Split(account))
  }

  // Walks.

  predicate Admits(e: Engine, variable: VariableSegment, name: string) {
    variable.pattern.Some? ==> e.compiles(variable.pattern.value) && e.matches(variable.pattern.value, name)
  }

  // A step to a child: by its own name, or to the variable segment when no fixed segment
  // shadows it and its pattern admits the name.
  predicate IsChild(e: Engine, node: Segment, name: string, child: Segment) {
    || (name in node.fixed && child == node.fixed[name])
    || (name !in node.fixed && node.variable.Some? && Admits(e, node.variable.value, name)
        && child == node.variable.value.segment)
  }

  predicate IsWalk(e: Engine, names: seq<string>, nodes: seq<Segment>) {
    && |nodes| == |names| + 1
    && forall i :: 0 <= i < |names| ==> IsChild(e, nodes[i], names[i], nodes[i + 1])
  }

  ghost predicate Reaches(e: Engine, node: Segment, names: seq<string>, end: Segment) {
    exists nodes :: IsWalk(e, names, nodes) && nodes[0] == node && nodes[|names|] == end
  }

  lemma {:induction false} StepThenWalk(e: Engine, node: Segment, child: Segment, names: seq<string>, end: Segment)
    requires names != [] && IsChild(e, node, names[0], child) && Reaches(e, child, names[1..], end)
    ensures Reaches(e, node, names, end)
  {
    var nodes :| IsWalk(e, names[1..], nodes) && nodes[0] == child && nodes[|names| - 1] == end;
    var all := [node] + nodes;
    forall i | 0 <= i < |names|
      ensures IsChild(e, all[i], names[i], all[i + 1])
    {
      if i > 0 {
        assert IsChild(e, nodes[i - 1], names[1..][i - 1], nodes[i]);
      }
    }
    assert IsWalk(e, names, all);
  }

  lemma {:induction false} WalkSteps(e: Engine, node: Segment, names: seq<string>,
                                     end: Segment) returns (child: Segment)
    requires names != [] && Reaches(e, node, names, end)
    ensures IsChild(e, node, names[0], child) && Reaches(e, child, names[1..], end)
  {
    var nodes :| IsWalk(e, names, nodes) && nodes[0] == node && nodes[|names|] == end;
    child := nodes[1];
    forall i | 0 <= i < |names| - 1
      ensures IsChild(e, nodes[1..][i], names[1..][i], nodes[1..][i + 1])
    {
      assert IsChild(e, nodes[i + 1], names[i + 1], nodes[i + 2]);
    }
    assert IsWalk(e, names[1..], nodes[1..]);
  }

  lemma {:induction false} StayPut(e: Engine, node: Segment)
    ensures Reaches(e, node, [], node)
    ensures forall end :: Reaches(e, node, [], end) ==> end == node
  {
    assert IsWalk(e, [], [node]);
  }

  // Names lead to at most one node.
  lemma {:induction false} WalksAgree(e: Engine, node: Segment, names: seq<string>, a: Segment, b: Segment)
    requires Reaches(e, node, names, a) && Reaches(e, node, names, b)
    ensures a == b
    decreases |names|
  {
    if names == [] {
      StayPut(e, node);
    } else {
      var child := WalkSteps(e, node, names, a);
      var other := WalkSteps(e, node, names, b);
      WalksAgree(e, child, names[1..], a, b);
    }
  }

  lemma {:induction false} FindsEnd(e: Engine, path: seq<string>, node: Segment, names: seq<string>, a: Account)
    requires names != [] && FindIn(e, path, node, names) == Ok(a)
    ensures exists end :: Reaches(e, node, names, end) && end.account == Some(a)
    decreases |names|
  {
    var child := if names[0] in node.fixed then node.fixed[names[0]] else node.variable.value.segment;
    assert IsChild(e, node, names[0], child);
    if |names| > 1 {
      FindsEnd(e, path + [names[0]], child, names[1..], a);
      var end :| Reaches(e, child, names[1..], end) && end.account == Some(a);
      StepThenWalk(e, node, child, names, end);
    } else {
      StayPut(e, child);
      StepThenWalk(e, node, child, names, child);
    }
  }

  lemma {:induction false} EndIsFound(e: Engine, path: seq<string>, node: Segment, names: seq<string>, end: Segment)
    requires names != [] && Reaches(e, node, names, end) && end.account.Some?
    ensures FindIn(e, path, node, names) == Ok(end.account.value)
    decreases |names|
  {
    var child := WalkSteps(e, node, names, end);
    if |names| > 1 {
      EndIsFound(e, path + [names[0]], child, names[1..], end);
    } else {
      StayPut(e, child);
    }
  }

  // Main result: an account is found if and only if its segments walk from the root to a
  // node that is an account.
  lemma {:induction false} FoundIff(e: Engine, c: Chart, account: string, a: Account)
    ensures FindAccountSchema(e, c, account) == Ok(a)
            <==> exists end :: Reaches(e, Root(c), Split(account), end) && end.account == Some(a)
  {
    if FindAccountSchema(e, c, account) == Ok(a) {
      FindsEnd(e, [], Root(c), Split(account), a);
    }
    forall end | Reaches(e, Root(c), Split(account), end) && end.account == Some(a)
      ensures FindAccountSchema(e, c, account) == Ok(a)
    {
      EndIsFound(e, [], Root(c), Split(account), end);
    }
  }

  // Rejections: why the walk stopped at a node, having followed some of the names.

  predicate Stuck(e: Engine, node: Segment, name: string, patternMismatch: bool) {
    && name !in node.fixed
    && if node.variable.None? then !patternMismatch
       else
         var p := node.variable.value.pattern;
         p.Some? && e.compiles(p.value) && !e.matches(p.value, name) && patternMismatch
  }

  predicate NotAnAccount(e: Engine, node: Segment, name: string) {
    if name in node.fixed then node.fixed[name].account.None?
    else node.variable.Some? && Admits(e, node.variable.value, name) && node.variable.value.segment.account.None?
  }

  // With m of the names followed to reach the node at, the next one is refused.
  ghost predicate Refused(e: Engine, node: Segment, names: seq<string>, m: nat, at: Segment, patternMismatch: bool) {
    && m < |names| && Reaches(e, node, names[..m], at)
    && (|| Stuck(e, at, names[m], patternMismatch)
        || (m + 1 == |names| && NotAnAccount(e, at, names[m]) && !patternMismatch))
  }

  predicate IsRefusal(r: Result<Account, LookupError>, path: seq<string>, names: seq<string>, m: nat,
                      patternMismatch: bool)
    requires m < |names|
  {
    r == Err(InvalidAccount(path + names[..m], names[m], patternMismatch, m + 1 < |names|))
  }

  lemma {:induction false} RefusalIsRight(e: Engine, path: seq<string>, node: Segment, names: seq<string>)
      returns (m: nat, at: Segment, patternMismatch: bool)
    requires names != []
    requires var r := FindIn(e, path, node, names); r.Err? && r.error.InvalidAccount?
    ensures Refused(e, node, names, m, at, patternMismatch)
    ensures IsRefusal(FindIn(e, path, node, names), path, names, m, patternMismatch)
    decreases |names|
  {
    var r := FindIn(e, path, node, names);
    StayPut(e, node);
    assert names[..0] == [] && path + [] == path;
    var entered := names[0] in node.fixed || (node.variable.Some? && Admits(e, node.variable.value, names[0]));
    if entered && |names| > 1 {
      var child := if names[0] in node.fixed then node.fixed[names[0]] else node.variable.value.segment;
      assert r == FindIn(e, path + [names[0]], child, names[1..]);
      m, at, patternMismatch := RefusalIsRight(e, path + [names[0]], child, names[1..]);
      PathThrough(path, names, m + 1);
      StepThenWalk(e, node, child, names[..m + 1], at);
      m := m + 1;
    } else {
      m, at, patternMismatch := 0, node, r.error.patternMismatch;
    }
  }

  lemma {:induction false} PathThrough(path: seq<string>, names: seq<string>, m: nat)
    requires 0 < m <= |names|
    ensures names[..m][0] == names[0] && names[..m][1..] == names[1..][..m - 1]
    ensures path + [names[0]] + names[1..][..m - 1] == path + names[..m]
  {
  }

  lemma {:induction false} RefusedIsRefusal(e: Engine, path: seq<string>, node: Segment, names: seq<string>, m: nat,
                                            at: Segment, patternMismatch: bool)
    requires Refused(e, node, names, m, at, patternMismatch)
    ensures IsRefusal(FindIn(e, path, node, names), path, names, m, patternMismatch)
    decreases m
  {
    if m == 0 {
      assert names[..0] == [] && path + [] == path;
      StayPut(e, node);
    } else {
      PathThrough(path, names, m);
      var child := WalkSteps(e, node, names[..m], at);
      RefusedIsRefusal(e, path + [names[0]], child, names[1..], m - 1, at, patternMismatch);
    }
  }

  // Main result: an account is rejected with a path, a segment and two flags if and only
  // if the walk follows exactly that path and is refused at that segment; the flags say
  // whether a pattern refused it and whether more segments were to follow.
  lemma {:induction false} RejectedIff(e: Engine, c: Chart, account: string, path: seq<string>, segment: string,
                                       patternMismatch: bool,
                    hasSubsegments: bool)
    ensures FindAccountSchema(e, c, account) == Err(InvalidAccount(path, segment, patternMismatch, hasSubsegments))
            <==> var names := Split(account);
                 var m := |path|;
                 && m < |names| && path == names[..m] && segment == names[m] && hasSubsegments == (m + 1 < |names|)
                 && exists at :: Refused(e, Root(c), names, m, at, patternMismatch)
  {
    var names, m := Split(account), |path|;
    if FindAccountSchema(e, c, account) == Err(InvalidAccount(path, segment, patternMismatch, hasSubsegments)) {
      var k, at, mismatch := RefusalIsRight(e, [], Root(c), names);
      assert [] + names[..k] == names[..k];
      assert k == m;
    }
    if m < |names| && path == names[..m] {
      forall at | Refused(e, Root(c), names, m, at, patternMismatch)
        ensures IsRefusal(FindAccountSchema(e, c, account), [], names, m, patternMismatch)
      {
        RefusedIsRefusal(e, [], Root(c), names, m, at, patternMismatch);
      }
      assert [] + names[..m] == names[..m];
    }
  }

  // The path and the segment of a rejection are where the account's text starts.
  lemma {:induction false} RejectionIsPrefix(e: Engine, c: Chart, account: string)
    requires var r := FindAccountSchema(e, c, account); r.Err? && r.error.InvalidAccount?
    ensures var r := FindAccountSchema(e, c, account).error;
            Join(r.path + [r.segment]) <= account
  {
    var names := Split(account);
    var k, at, mismatch := RefusalIsRight(e, [], Root(c), names);
    NoPathBefore(names, k);
    JoinSplit(account);
    JoinPrefix(names, k + 1);
  }

  lemma {:induction false} NoPathBefore(names: seq<string>, k: nat)
    requires k < |names|
    ensures [] + names[..k] + [names[k]] == names[..k + 1]
  {
  }

  // A chart that was read holds no pattern that does not compile, so a lookup in it
  // either finds an account or rejects the text.
  lemma {:induction false} PatternsCompile(e: Engine, path: seq<string>, node: Segment, names: seq<string>)
    requires names != []
    requires forall k :: k in node.fixed ==> WellFormed(e, node.fixed[k])
    requires node.variable.Some? ==>
               && WellFormed(e, node.variable.value.segment)
               && (node.variable.value.pattern.Some? ==> e.compiles(node.variable.value.pattern.value))
    ensures var r := FindIn(e, path, node, names); r.Err? ==> r.error.InvalidAccount?
    decreases |names|
  {
    if |names| > 1 {
      if names[0] in node.fixed {
        PatternsCompile(e, path + [names[0]], node.fixed[names[0]], names[1..]);
      } else if node.variable.Some? {
        PatternsCompile(e, path + [names[0]], node.variable.value.segment, names[1..]);
      }
    }
  }

  lemma {:induction false} ReadChartsNeverFail(e: Engine, j: JSON, account: string)
    requires ReadsAsChart(e, j)
    ensures var r := FindAccountSchema(e, ChartOf(e, j), account); r.Err? ==> r.error.InvalidAccount?
  {
    ChartOfWellFormed(e, j);
    PatternsCompile(e, [], Root(ChartOf(e, j)), Split(account));
  }
}
