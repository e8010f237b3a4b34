// Which documents are charts, and what chart each is, said of the paths of keys into the
// document and not of the parser.
module ChartPaths {
  import opened Wrappers
  import opened Charts

  // What a path of keys leads to in a document.
  function DocumentAt(j: JSON, path: seq<string>): Option<JSON>
    decreases |path|
  {
    if path == [] then Some(j)
    else if j.JObject? && path[0] in j.members then DocumentAt(j.members[path[0]], path[1..])
    else None
  }

  function Keys(j: JSON): set<string> {
    if j.JObject? then j.members.Keys else {}
  }

  predicate IsMap(j: JSON) {
    j.JNull? || j.JObject?
  }

  predicate IsPath(path: seq<string>) {
    forall k :: k in path ==> !StartsWith(k, '.')
  }

  predicate IsDefault(j: JSON) {
    IsMap(j) && ("default" in Keys(j) ==> j.members["default"].JNull? || j.members["default"].JString?)
  }

  predicate IsMetadata(j: JSON) {
    IsMap(j) && forall k :: k in Keys(j) ==> IsDefault(j.members[k])
  }

  predicate Branches(j: JSON) {
    exists k :: k in Keys(j) && !StartsWith(k, '.')
  }

  // An account is marked, or has nothing below it.
  predicate MarksAccount(j: JSON) {
    ".self" in Keys(j) || !Branches(j)
  }

  // Letters, digits, underscore (95) and hyphen (45) of ASCII, by code point.
  predicate IsPlainChar(c: char) {
    97 <= c as int <= 122 || 65 <= c as int <= 90 || 48 <= c as int <= 57 || c as int == 95 || c as int == 45
  }

  predicate IsPlainName(k: string) {
    k != "" && forall c :: c in k ==> IsPlainChar(c)
  }

  lemma {:induction false} PlainNames(k: string)
    ensures IsName(k) <==> IsPlainName(k)
  {
    forall c | c in k
      ensures IsNameChar(c) <==> IsPlainChar(c)
    {
      assert c as int == 95 ==> c == 95 as char;
      assert c as int == 45 ==> c == 45 as char;
    }
  }

  // A key of a segment: a name, with a dollar sign before it for a variable segment.
  predicate IsSegmentKey(k: string) {
    IsPlainName(k) || (StartsWith(k, '$') && IsPlainName(k[1..]))
  }

  predicate KeysAllowed(j: JSON) {
    && (forall k :: k in Keys(j) && !StartsWith(k, '.') ==> IsSegmentKey(k))
    && forall k, l :: k in Keys(j) && l in Keys(j) && StartsWith(k, '$') && StartsWith(l, '$') ==> k == l
  }

  // Only what is under a variable key has a pattern.
  predicate PatternAllowed(e: Engine, key: string, j: JSON) {
    ".pattern" in Keys(j) ==>
      StartsWith(key, '$') && j.members[".pattern"].JString? && e.compiles(j.members[".pattern"].s)
  }

  predicate PropertiesAllowed(j: JSON) {
    && (".self" in Keys(j) ==> IsMap(j.members[".self"]) && Keys(j.members[".self"]) == {})
    && (".metadata" in Keys(j) ==> IsMetadata(j.members[".metadata"]) && MarksAccount(j))
    && (".rules" in Keys(j) ==> IsMap(j.members[".rules"]) && MarksAccount(j))
  }

  // What a chart may hold under `key`.
  predicate SegmentAllowed(e: Engine, key: string, j: JSON) {
    IsMap(j) && KeysAllowed(j) && PatternAllowed(e, key, j) && PropertiesAllowed(j)
  }

  predicate RootAllowed(j: JSON) {
    IsMap(j) && forall k :: k in Keys(j) ==> IsPlainName(k)
  }

  ghost predicate AllAllowed(e: Engine, key: string, j: JSON) {
    forall path :: IsPath(path) && DocumentAt(j, path).Some? ==>
      SegmentAllowed(e, if path == [] then key else path[|path| - 1], DocumentAt(j, path).value)
  }

  // One object, as the parser sees it.

  predicate NodeReads(e: Engine, key: string, j: JSON) {
    && PatternReads(e, j) && (IsVariable(key) || PatternOf(e, j).None?)
    && var m := Members(j).value;
       && (forall k :: k in m ==> OwnMemberReads(k, m[k]))
       && OneVariable(m)
       && (METADATA in m || RULES in m ==> IsAccount(m))
  }

  predicate OwnMemberReads(k: string, value: JSON) {
    if IsSubsegment(k) then ValidateSegment(k)
    else if k == SELF then Members(value) == Some(map[])
    else if k == METADATA then ReadsAsMetadata(value)
    else if k == RULES then Members(value).Some?
    else true
  }

  lemma {:induction false} MetadataShapes(j: JSON)
    ensures ReadsAsMetadata(j) <==> IsMetadata(j)
  {
  }

  lemma {:induction false} AccountShapes(j: JSON)
    requires IsMap(j)
    ensures IsAccount(Members(j).value) <==> MarksAccount(j)
  {
  }

  lemma {:induction false} SegmentKeys(k: string)
    requires IsSubsegment(k)
    ensures ValidateSegment(k) <==> IsSegmentKey(k)
  {
    PlainNames(k);
    if IsName(k) {
      assert IsNameChar(k[0]);
    } else if StartsWith(k, '$') {
      PlainNames(k[1..]);
    }
  }

  lemma {:induction false} OwnMemberShapes(e: Engine, key: string, j: JSON, k: string)
    requires SegmentAllowed(e, key, j) && k in Keys(j)
    ensures OwnMemberReads(k, j.members[k])
  {
    if IsSubsegment(k) {
      SegmentKeys(k);
    } else if k == METADATA {
      MetadataShapes(j.members[k]);
    }
  }

  lemma {:induction false} AllowedReads(e: Engine, key: string, j: JSON)
    requires SegmentAllowed(e, key, j)
    ensures NodeReads(e, key, j)
  {
    AccountShapes(j);
    forall k | k in Members(j).value
      ensures OwnMemberReads(k, Members(j).value[k])
    {
      OwnMemberShapes(e, key, j, k);
    }
  }

  lemma {:induction false} ReadKeysAllowed(j: JSON)
    requires IsMap(j) && OneVariable(Members(j).value)
    requires forall k :: k in Keys(j) ==> OwnMemberReads(k, j.members[k])
    ensures KeysAllowed(j)
  {
    forall k | k in Keys(j) && !StartsWith(k, '.')
      ensures IsSegmentKey(k)
    {
      assert OwnMemberReads(k, j.members[k]);
      SegmentKeys(k);
    }
  }

  lemma {:induction false} ReadPropertiesAllowed(j: JSON)
    requires IsMap(j) && (METADATA in Keys(j) || RULES in Keys(j) ==> MarksAccount(j))
    requires forall k :: k in Keys(j) ==> OwnMemberReads(k, j.members[k])
    ensures PropertiesAllowed(j)
  {
    if METADATA in Keys(j) {
      assert OwnMemberReads(METADATA, j.members[METADATA]);
      MetadataShapes(j.members[METADATA]);
    }
    assert SELF in Keys(j) ==> OwnMemberReads(SELF, j.members[SELF]);
    assert RULES in Keys(j) ==> OwnMemberReads(RULES, j.members[RULES]);
  }

  lemma {:induction false} ReadIsAllowed(e: Engine, key: string, j: JSON)
    requires NodeReads(e, key, j)
    ensures SegmentAllowed(e, key, j)
  {
    var m := Members(j).value;
    assert forall k :: k in Keys(j) ==> OwnMemberReads(k, m[k]);
    AccountShapes(j);
    ReadKeysAllowed(j);
    ReadPropertiesAllowed(j);
  }

  // A segment under `key` that reads, with its pattern in place.
  predicate Fits(e: Engine, key: string, j: JSON) {
    ReadsAsSegment(e, j) && PatternReads(e, j) && (IsVariable(key) || PatternOf(e, j).None?)
  }

  lemma {:induction false} FitsIff(e: Engine, key: string, j: JSON)
    ensures Fits(e, key, j)
            <==> NodeReads(e, key, j) && forall k :: k in Keys(j) && IsSubsegment(k) ==> Fits(e, k, j.members[k])
  {
    if PatternReads(e, j) {
      var m := Members(j).value;
      forall k | k in m
        ensures ReadsAsMember(e, k, m[k]) <==> OwnMemberReads(k, m[k]) && (IsSubsegment(k) ==> Fits(e, k, m[k]))
      {
      }
    }
  }

  lemma {:induction false} PathBehind(k: string, path: seq<string>)
    ensures ([k] + path)[1..] == path && (IsPath([k] + path) <==> !StartsWith(k, '.') && IsPath(path))
    ensures ([k] + path)[|path|] == if path == [] then k else path[|path| - 1]
  {
    assert forall l :: l in [k] + path <==> l == k || l in path;
  }

  lemma {:induction false} AllowedBelow(e: Engine, key: string, j: JSON, k: string)
    requires AllAllowed(e, key, j) && k in Keys(j) && !StartsWith(k, '.')
    ensures AllAllowed(e, k, j.members[k])
  {
    var child := j.members[k];
    forall path | IsPath(path) && DocumentAt(child, path).Some?
      ensures SegmentAllowed(e, if path == [] then k else path[|path| - 1], DocumentAt(child, path).value)
    {
      PathBehind(k, path);
      assert DocumentAt(j, [k] + path) == DocumentAt(child, path);
    }
  }

  lemma {:induction false} AllowedFrom(e: Engine, j: JSON, path: seq<string>)
    requires path != [] && IsPath(path) && DocumentAt(j, path).Some?
    requires AllAllowed(e, path[0], j.members[path[0]])
    ensures SegmentAllowed(e, path[|path| - 1], DocumentAt(j, path).value)
  {
    assert [path[0]] + path[1..] == path;
    PathBehind(path[0], path[1..]);
  }

  lemma {:induction false} AllowedAbove(e: Engine, key: string, j: JSON)
    requires SegmentAllowed(e, key, j)
    requires forall k :: k in Keys(j) && !StartsWith(k, '.') ==> AllAllowed(e, k, j.members[k])
    ensures AllAllowed(e, key, j)
  {
    forall path | IsPath(path) && DocumentAt(j, path).Some?
      ensures SegmentAllowed(e, if path == [] then key else path[|path| - 1], DocumentAt(j, path).value)
    {
      if path != [] {
        assert path[0] in path;
        AllowedFrom(e, j, path);
      }
    }
  }

  lemma {:induction false} FitsIffAllowed(e: Engine, key: string, j: JSON)
    ensures Fits(e, key, j) <==> AllAllowed(e, key, j)
    decreases j
  {
    FitsIff(e, key, j);
    forall k | k in Keys(j) && IsSubsegment(k)
      ensures Fits(e, k, j.members[k]) <==> AllAllowed(e, k, j.members[k])
    {
      FitsIffAllowed(e, k, j.members[k]);
    }
    if AllAllowed(e, key, j) {
      assert DocumentAt(j, []) == Some(j) && IsPath([]);
      AllowedReads(e, key, j);
      forall k | k in Keys(j) && IsSubsegment(k)
        ensures AllAllowed(e, k, j.members[k])
      {
        AllowedBelow(e, key, j, k);
      }
    }
    if Fits(e, key, j) {
      ReadIsAllowed(e, key, j);
      AllowedAbove(e, key, j);
    }
  }

  // Main result: a document is a chart if and only if, at the root, it is a map of plain
  // names, and at whatever else a path of subsegment keys reaches, what a segment may hold.
  ghost predicate ChartAllowed(e: Engine, j: JSON) {
    && RootAllowed(j)
    && forall path :: IsPath(path) && path != [] && DocumentAt(j, path).Some? ==>
         SegmentAllowed(e, path[|path| - 1], DocumentAt(j, path).value)
  }

  lemma {:induction false} RootKeys(k: string)
    ensures ValidateSegment(k) && !StartsWith(k, '$') && !StartsWith(k, '.') <==> IsPlainName(k)
  {
    PlainNames(k);
    if IsName(k) {
      assert IsNameChar(k[0]);
    }
  }

  lemma {:induction false} RootFits(e: Engine, k: string, value: JSON)
    ensures ReadsAsRoot(e, k, value) <==> IsPlainName(k) && AllAllowed(e, k, value)
  {
    RootKeys(k);
    FitsIffAllowed(e, k, value);
  }

  lemma {:induction false} AcceptedIff(e: Engine, j: JSON)
    ensures ReadsAsChart(e, j) <==> ChartAllowed(e, j)
  {
    if IsMap(j) {
      forall k | k in Keys(j)
        ensures ReadsAsRoot(e, k, j.members[k]) <==> IsPlainName(k) && AllAllowed(e, k, j.members[k])
      {
        RootFits(e, k, j.members[k]);
      }
      if ChartAllowed(e, j) {
        forall k | k in Keys(j)
          ensures AllAllowed(e, k, j.members[k])
        {
          RootKeys(k);
          RootBelow(e, j, k);
        }
      }
      if ReadsAsChart(e, j) {
        RootAbove(e, j);
      }
    }
  }

  lemma {:induction false} RootBelow(e: Engine, j: JSON, k: string)
    requires ChartAllowed(e, j) && k in Keys(j) && !StartsWith(k, '.')
    ensures AllAllowed(e, k, j.members[k])
  {
    var child := j.members[k];
    forall path | IsPath(path) && DocumentAt(child, path).Some?
      ensures SegmentAllowed(e, if path == [] then k else path[|path| - 1], DocumentAt(child, path).value)
    {
      PathBehind(k, path);
      assert DocumentAt(j, [k] + path) == DocumentAt(child, path);
    }
  }

  lemma {:induction false} RootAbove(e: Engine, j: JSON)
    requires RootAllowed(j) && forall k :: k in Keys(j) ==> AllAllowed(e, k, j.members[k])
    ensures ChartAllowed(e, j)
  {
    forall path | IsPath(path) && path != [] && DocumentAt(j, path).Some?
      ensures SegmentAllowed(e, path[|path| - 1], DocumentAt(j, path).value)
    {
      assert path[0] in path;
      AllowedFrom(e, j, path);
    }
  }

  // What a path of keys leads to in a chart.
  function SegmentAt(s: Segment, path: seq<string>): Option<Segment>
    decreases |path|
  {
    if path == [] then Some(s)
    else if path[0] in s.fixed then SegmentAt(s.fixed[path[0]], path[1..])
    else if s.variable.Some? && path[0] == "$" + s.variable.value.name then
      SegmentAt(s.variable.value.segment, path[1..])
    else None
  }

  function DefaultIn(j: JSON): Option<string> {
    if "default" in Keys(j) && j.members["default"].JString? then Some(j.members["default"].s) else None
  }

  predicate HoldsMetadata(j: JSON, metadata: Option<map<string, Option<string>>>) {
    if ".metadata" !in Keys(j) || j.members[".metadata"].JNull? then metadata.None?
    else
      var value := j.members[".metadata"];
      && metadata.Some? && metadata.value.Keys == Keys(value)
      && forall k :: k in Keys(value) ==> metadata.value[k] == DefaultIn(value.members[k])
  }

  predicate HoldsPattern(j: JSON, pattern: Option<string>) {
    if ".pattern" in Keys(j) then pattern.Some? && j.members[".pattern"] == JString(pattern.value) else pattern.None?
  }

  // What a segment holds of the object it was read from.
  predicate HoldsNode(j: JSON, s: Segment) {
    && (s.account.Some? <==> MarksAccount(j))
    && (s.account.Some? ==> HoldsMetadata(j, s.account.value.metadata))
    && (s.variable.Some? ==>
          var k := "$" + s.variable.value.name;
          k in Keys(j) && HoldsPattern(j.members[k], s.variable.value.pattern))
  }

  lemma {:induction false} VariableKeyOf(k: string)
    requires StartsWith(k, '$')
    ensures "$" + k[1..] == k
  {
  }

  lemma {:induction false} ReadMetadataHeld(e: Engine, j: JSON)
    requires ReadsAsSegment(e, j) && SegmentOf(e, j).account.Some?
    ensures HoldsMetadata(j, SegmentOf(e, j).account.value.metadata)
  {
    var m := Members(j).value;
    if METADATA in m {
      assert ReadsAsMember(e, METADATA, m[METADATA]);
    }
  }

  lemma {:induction false} ReadNodeHeld(e: Engine, j: JSON)
    requires ReadsAsSegment(e, j)
    ensures HoldsNode(j, SegmentOf(e, j))
  {
    var m, s := Members(j).value, SegmentOf(e, j);
    AccountShapes(j);
    if s.account.Some? {
      ReadMetadataHeld(e, j);
    }
    if s.variable.Some? {
      assert s.variable == VariableOf(e, j);
      assert exists k :: k in m && IsVariable(k);
      var k :| k in m && IsVariable(k);
      VariableIs(e, j, k);
      VariableKeyOf(k);
      assert ReadsAsMember(e, k, m[k]);
    }
  }

  lemma {:induction false} ReadChild(e: Engine, j: JSON, k: string)
    requires ReadsAsSegment(e, j) && !StartsWith(k, '.')
    ensures k in Keys(j) ==> ReadsAsSegment(e, j.members[k])
    ensures var s := SegmentOf(e, j);
            SegmentAt(s, [k]) == if k in Keys(j) then Some(SegmentOf(e, j.members[k])) else None
  {
    var m, s := Members(j).value, SegmentOf(e, j);
    assert [k][1..] == [];
    assert s.fixed == FixedOf(e, j);
    if k in m {
      assert ReadsAsMember(e, k, m[k]);
      if IsVariable(k) {
        VariableIs(e, j, k);
        VariableKeyOf(k);
      }
    } else if s.variable.Some? {
      assert s.variable == VariableOf(e, j);
      assert exists l :: l in m && IsVariable(l);
      var l :| l in m && IsVariable(l);
      VariableIs(e, j, l);
      VariableKeyOf(l);
    }
  }

  lemma {:induction false} SegmentAtStep(s: Segment, path: seq<string>)
    requires path != []
    ensures var child := SegmentAt(s, [path[0]]);
            SegmentAt(s, path) == if child.Some? then SegmentAt(child.value, path[1..]) else None
  {
    assert [path[0]][1..] == [];
  }

  lemma {:induction false} ReadAt(e: Engine, j: JSON, path: seq<string>)
    requires ReadsAsSegment(e, j) && IsPath(path)
    ensures DocumentAt(j, path).Some? <==> SegmentAt(SegmentOf(e, j), path).Some?
    ensures DocumentAt(j, path).Some? ==>
              HoldsNode(DocumentAt(j, path).value, SegmentAt(SegmentOf(e, j), path).value)
    decreases |path|
  {
    if path == [] {
      ReadNodeHeld(e, j);
    } else {
      assert path[0] in path && forall k :: k in path[1..] ==> k in path;
      ReadChild(e, j, path[0]);
      SegmentAtStep(SegmentOf(e, j), path);
      if path[0] in Keys(j) {
        ReadAt(e, j.members[path[0]], path[1..]);
      }
    }
  }

  // Main result: the chart that is read has a segment exactly where the document has an
  // object, and each holds what its object says: whether it is an account, the default
  // metadata, and the pattern of its variable segment.
  lemma {:induction false} ChartIsDocument(e: Engine, j: JSON, path: seq<string>)
    requires ReadsAsChart(e, j) && IsPath(path) && path != []
    ensures var c := ChartOf(e, j);
            var at := if path[0] in c then SegmentAt(c[path[0]], path[1..]) else None;
            && (DocumentAt(j, path).Some? <==> at.Some?)
            && (at.Some? ==> HoldsNode(DocumentAt(j, path).value, at.value))
  {
    var m, c := Members(j).value, ChartOf(e, j);
    if path[0] in m {
      assert ReadsAsRoot(e, path[0], m[path[0]]);
      assert forall k :: k in path[1..] ==> k in path;
      ReadAt(e, m[path[0]], path[1..]);
    }
  }

  // Written default metadata has one object per key, which holds the default if there is one.
  lemma {:induction false} WrittenMetadata(metadata: map<string, Option<string>>, k: string)
    requires k in metadata
    ensures var j := EncodeMetadata(metadata);
            && Keys(j) == metadata.Keys
            && DefaultIn(j.members[k]) == metadata[k]
            && Keys(j.members[k]) == if metadata[k].Some? then {"default"} else {}
  {
    assert Keys(EncodeMetadata(metadata)) == metadata.Keys;
  }
}
