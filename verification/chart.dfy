// The chart of accounts: reading it from JSON and writing it back.
module Charts {
  import opened Wrappers

  // A JSON document; the members of an object are unordered.
  datatype JSON =
    | JNull
    | JBool(b: bool)
    | JNumber(literal: string)
    | JString(s: string)
    | JArray(elements: seq<JSON>)
    | JObject(members: map<string, JSON>)

  // The rules of an account are an empty structure.
  datatype Account = Account(metadata: Option<map<string, Option<string>>>)

  datatype Segment = Segment(variable: Option<VariableSegment>, fixed: map<string, Segment>, account: Option<Account>)

  datatype VariableSegment = VariableSegment(segment: Segment, pattern: Option<string>, name: string)

  type Chart = map<string, Segment>

  // The regular expressions of a pattern: which texts compile and what they match.
  datatype Engine = Engine(compiles: string -> bool, matches: (string, string) -> bool)

  const PATTERN := ".pattern"
  const SELF := ".self"
  const RULES := ".rules"
  const METADATA := ".metadata"

  predicate IsNameChar(c: char) {
    'a' <= c <= 'z' || 'A' <= c <= 'Z' || '0' <= c <= '9' || c == '_' || c == '-'
  }

  predicate IsName(s: string) {
    s != "" && forall i :: 0 <= i < |s| ==> IsNameChar(s[i])
  }

  predicate StartsWith(s: string, c: char) {
    s != "" && s[0] == c
  }

  predicate ValidateSegment(key: string) {
    IsName(if StartsWith(key, '$') || StartsWith(key, '.') then key[1..] else key)
  }

  // What decoding into a map does: null is the empty map.
  function Members(j: JSON): Option<map<string, JSON>> {
    match j
    case JNull => Some(map[])
    case JObject(members) => Some(members)
    case _ => None
  }

  // Reading a segment, as a condition on the document and a value.

  predicate ReadsAsDefault(j: JSON) {
    match Members(j)
    case None => false
    case Some(m) => "default" in m ==> m["default"].JNull? || m["default"].JString?
  }

  predicate ReadsAsMetadata(j: JSON) {
    match Members(j)
    case None => false
    case Some(m) => forall k :: k in m ==> ReadsAsDefault(m[k])
  }

  function DefaultOf(j: JSON): Option<string>
    requires ReadsAsDefault(j)
  {
    var m := Members(j).value;
    if "default" in m && m["default"].JString? then Some(m["default"].s) else None
  }

  function MetadataOf(j: JSON): Option<map<string, Option<string>>>
    requires ReadsAsMetadata(j)
  {
    if j.JNull? then None
    else Some(map k | k in j.members :: DefaultOf(j.members[k]))
  }

  predicate IsSubsegment(key: string) {
    !StartsWith(key, '.')
  }

  predicate IsVariable(key: string) {
    StartsWith(key, '$')
  }

  predicate PatternReads(e: Engine, j: JSON) {
    match Members(j)
    case None => false
    case Some(m) => PATTERN in m ==> m[PATTERN].JString? && e.compiles(m[PATTERN].s)
  }

  function PatternOf(e: Engine, j: JSON): Option<string>
    requires PatternReads(e, j)
  {
    var m := Members(j).value;
    if PATTERN in m then Some(m[PATTERN].s) else None
  }

  predicate IsFixed(key: string) {
    IsSubsegment(key) && !IsVariable(key)
  }

  predicate IsLeaf(m: map<string, JSON>) {
    forall k :: k in m ==> !IsSubsegment(k)
  }

  predicate IsAccount(m: map<string, JSON>) {
    SELF in m || IsLeaf(m)
  }

  predicate OneVariable(m: map<string, JSON>) {
    forall k, l :: k in m && l in m && IsVariable(k) && IsVariable(l) ==> k == l
  }

  predicate ReadsAsSegment(e: Engine, j: JSON)
    decreases j, 0
  {
    match Members(j)
    case None => false
    case Some(m) =>
      && (forall k :: k in m ==> ReadsAsMember(e, k, m[k]))
      && OneVariable(m)
      && (METADATA in m || RULES in m ==> IsAccount(m))
  }

  predicate ReadsAsMember(e: Engine, key: string, value: JSON)
    decreases value, 1
  {
    if IsSubsegment(key) then
      && ValidateSegment(key) && PatternReads(e, value) && ReadsAsSegment(e, value)
      && (IsVariable(key) || PatternOf(e, value).None?)
    else if key == SELF then Members(value) == Some(map[])
    else if key == METADATA then ReadsAsMetadata(value)
    else if key == RULES then Members(value).Some?
    else true
  }

  predicate MembersRead(e: Engine, j: JSON) {
    && Members(j).Some?
    && var m := Members(j).value;
       forall k :: k in m ==> ReadsAsMember(e, k, m[k])
  }

  ghost function FixedOf(e: Engine, j: JSON): map<string, Segment>
    requires MembersRead(e, j)
    decreases j, 0
  {
    var m := Members(j).value;
    map k | k in m && IsFixed(k) :: SegmentOf(e, m[k])
  }

  ghost function VariableOf(e: Engine, j: JSON): Option<VariableSegment>
    requires MembersRead(e, j)
    decreases j, 0
  {
    var m := Members(j).value;
    if exists k :: k in m && IsVariable(k) then
      var k :| k in m && IsVariable(k);
      Some(VariableSegment(SegmentOf(e, m[k]), PatternOf(e, m[k]), k[1..]))
    else None
  }

  lemma {:induction false} VariableIs(e: Engine, j: JSON, k: string)
    requires MembersRead(e, j) && OneVariable(Members(j).value)
    requires k in Members(j).value && IsVariable(k)
    ensures var value := Members(j).value[k];
            VariableOf(e, j) == Some(VariableSegment(SegmentOf(e, value), PatternOf(e, value), k[1..]))
  {
  }

  function MetadataIn(m: map<string, JSON>): Option<map<string, Option<string>>>
    requires METADATA in m ==> ReadsAsMetadata(m[METADATA])
  {
    if METADATA in m then MetadataOf(m[METADATA]) else None
  }

  ghost function SegmentOf(e: Engine, j: JSON): Segment
    requires ReadsAsSegment(e, j)
    decreases j, 1
  {
    var m := Members(j).value;
    assert METADATA in m ==> ReadsAsMember(e, METADATA, m[METADATA]);
    Segment(VariableOf(e, j), FixedOf(e, j), if IsAccount(m) then Some(Account(MetadataIn(m))) else None)
  }

  // What has been read once the members of m have been visited.
  datatype Progress = Progress(
    isLeaf: bool, isAccount: bool, metadata: Option<map<string, Option<string>>>,
    fixed: map<string, Segment>, variable: Option<VariableSegment>)

  ghost predicate CanRead(e: Engine, m: map<string, JSON>) {
    MembersRead(e, JObject(m)) && OneVariable(m)
  }

  lemma {:induction false} MetadataReads(e: Engine, m: map<string, JSON>)
    requires forall k :: k in m ==> ReadsAsMember(e, k, m[k])
    ensures METADATA in m ==> ReadsAsMetadata(m[METADATA])
  {
    assert METADATA in m ==> ReadsAsMember(e, METADATA, m[METADATA]);
  }

  ghost function ProgressOf(e: Engine, m: map<string, JSON>): Progress
    requires CanRead(e, m)
  {
    MetadataReads(e, m);
    Progress(IsLeaf(m), SELF in m, MetadataIn(m), FixedOf(e, JObject(m)), VariableOf(e, JObject(m)))
  }

  // One more member, in whatever order the members are visited.

  lemma {:induction false} FixedOfMore(e: Engine, m: map<string, JSON>, key: string, value: JSON)
    requires MembersRead(e, JObject(m)) && key !in m && ReadsAsMember(e, key, value)
    ensures MembersRead(e, JObject(m[key := value]))
    ensures FixedOf(e, JObject(m[key := value]))
            == if IsFixed(key) then FixedOf(e, JObject(m))[key := SegmentOf(e, value)] else FixedOf(e, JObject(m))
  {
  }

  lemma {:induction false} VariableOfMore(e: Engine, m: map<string, JSON>, key: string, value: JSON)
    requires MembersRead(e, JObject(m)) && key !in m && ReadsAsMember(e, key, value)
    requires OneVariable(m[key := value])
    ensures MembersRead(e, JObject(m[key := value]))
    ensures VariableOf(e, JObject(m[key := value]))
            == if IsVariable(key) then Some(VariableSegment(SegmentOf(e, value), PatternOf(e, value), key[1..]))
               else VariableOf(e, JObject(m))
  {
    var n := m[key := value];
    if IsVariable(key) {
      assert key in n;
    } else if exists k :: k in m && IsVariable(k) {
      var k :| k in m && IsVariable(k);
      assert k in n;
    }
  }

  // What reading one more member adds.
  ghost function Next(e: Engine, p: Progress, key: string, value: JSON): Progress
    requires ReadsAsMember(e, key, value)
  {
    if IsVariable(key) then
      p.(isLeaf := false, variable := Some(VariableSegment(SegmentOf(e, value), PatternOf(e, value), key[1..])))
    else if IsSubsegment(key) then p.(isLeaf := false, fixed := p.fixed[key := SegmentOf(e, value)])
    else if key == SELF then p.(isAccount := true)
    else if key == METADATA then p.(metadata := MetadataOf(value))
    else p
  }

  lemma {:induction false} ReadOneMore(e: Engine, m: map<string, JSON>, key: string, value: JSON)
    requires CanRead(e, m) && key !in m
    requires ReadsAsMember(e, key, value)
    requires IsVariable(key) ==> ProgressOf(e, m).variable.None?
    ensures CanRead(e, m[key := value])
    ensures ProgressOf(e, m[key := value]) == Next(e, ProgressOf(e, m), key, value)
  {
    FixedOfMore(e, m, key, value);
    VariableOfMore(e, m, key, value);
    LeafMore(m, key, value);
  }

  lemma {:induction false} LeafMore(m: map<string, JSON>, key: string, value: JSON)
    requires key !in m
    ensures IsLeaf(m[key := value]) <==> IsLeaf(m) && !IsSubsegment(key)
  {
    assert key in m[key := value];
    if !IsLeaf(m) {
      var k :| k in m && IsSubsegment(k);
      assert k in m[key := value];
    }
  }

  lemma {:induction false} TwoVariables(e: Engine, m: map<string, JSON>, whole: map<string, JSON>, key: string)
    requires CanRead(e, m) && ProgressOf(e, m).variable.Some?
    requires m.Keys <= whole.Keys && key in whole && key !in m && IsVariable(key)
    ensures !OneVariable(whole)
  {
    var k :| k in m && IsVariable(k);
    assert k in whole.Keys;
  }

  method UnmarshalMetadata(value: JSON) returns (r: Option<Option<map<string, Option<string>>>>)
    ensures r == if ReadsAsMetadata(value) then Some(MetadataOf(value)) else None
  {
    var members := Members(value);
    if members.None? {
      return None;
    }
    if value.JNull? {
      return Some(None);
    }
    var left, out := value.members.Keys, map[];
    while left != {}
      invariant left <= value.members.Keys
      invariant forall k :: k in value.members && k !in left ==> ReadsAsDefault(value.members[k])
      invariant out == map k | k in value.members && k !in left :: DefaultOf(value.members[k])
    {
      var key :| key in left;
      left := left - {key};
      if !ReadsAsDefault(value.members[key]) {
        return None;
      }
      out := out[key := DefaultOf(value.members[key])];
    }
    assert out == MetadataOf(value).value;
    return Some(Some(out));
  }

  // A member that is a subsegment, with its pattern.
  method UnmarshalSubsegment(e: Engine, key: string, value: JSON) returns (r: Option<(Segment, Option<string>)>)
    requires IsSubsegment(key)
    ensures r == if ReadsAsMember(e, key, value) then Some((SegmentOf(e, value), PatternOf(e, value))) else None
    decreases value, 1
  {
    if !ValidateSegment(key) || !PatternReads(e, value) {
      return None;
    }
    var child := UnmarshalSegment(e, value);
    if child.None? || (!IsVariable(key) && PatternOf(e, value).Some?) {
      return None;
    }
    return Some((child.value, PatternOf(e, value)));
  }

  // A member that is a property.
  method UnmarshalProperty(e: Engine, key: string, value: JSON, p: Progress) returns (r: Option<Progress>)
    requires !IsSubsegment(key)
    ensures r == if ReadsAsMember(e, key, value) then Some(Next(e, p, key, value)) else None
  {
    if key == SELF {
      return if Members(value) == Some(map[]) then Some(p.(isAccount := true)) else None;
    }
    if key == METADATA {
      var read := UnmarshalMetadata(value);
      return if read.None? then None else Some(p.(metadata := read.value));
    }
    if key == RULES && Members(value).None? {
      return None;
    }
    return Some(p);
  }

  // The body of the loop over the members. A second variable segment is refused.
  method UnmarshalMember(e: Engine, key: string, value: JSON, p: Progress) returns (r: Option<Progress>)
    ensures r == if ReadsAsMember(e, key, value) && (IsVariable(key) ==> p.variable.None?)
                 then Some(Next(e, p, key, value)) else None
    decreases value, 2
  {
    if !IsSubsegment(key) {
      r := UnmarshalProperty(e, key, value, p);
      return;
    }
    var child := UnmarshalSubsegment(e, key, value);
    if child.None? || (IsVariable(key) && p.variable.Some?) {
      return None;
    }
    if IsVariable(key) {
      return Some(p.(isLeaf := false, variable := Some(VariableSegment(child.value.0, child.value.1, key[1..]))));
    }
    return Some(p.(isLeaf := false, fixed := p.fixed[key := child.value.0]));
  }

  lemma {:induction false} MemberRefused(e: Engine, j: JSON, seen: map<string, JSON>, key: string)
    requires Members(j).Some? && key in Members(j).value && key !in seen
    requires CanRead(e, seen) && seen.Keys <= Members(j).value.Keys
    requires !ReadsAsMember(e, key, Members(j).value[key]) || (IsVariable(key) && ProgressOf(e, seen).variable.Some?)
    ensures !ReadsAsSegment(e, j)
  {
    var m := Members(j).value;
    if ReadsAsMember(e, key, m[key]) {
      TwoVariables(e, seen, m, key);
    }
  }

  method UnmarshalSegment(e: Engine, j: JSON) returns (r: Option<Segment>)
    ensures r == if ReadsAsSegment(e, j) then Some(SegmentOf(e, j)) else None
    decreases j, 0
  {
    if Members(j).None? {
      return None;
    }
    var segment := Members(j).value;
    var p := Progress(true, false, None, map[], None);
    var left := segment.Keys;
    ghost var seen: map<string, JSON> := map[];
    while left != {}
      invariant left <= segment.Keys && seen.Keys == segment.Keys - left
      invariant forall k :: k in seen ==> seen[k] == segment[k]
      invariant CanRead(e, seen) && p == ProgressOf(e, seen)
    {
      var key :| key in left;
      left := left - {key};
      var next := UnmarshalMember(e, key, segment[key], p);
      if next.None? {
        MemberRefused(e, j, seen, key);
        return None;
      }
      ReadOneMore(e, seen, key, segment[key]);
      seen := seen[key := segment[key]];
      p := next.value;
    }
    assert seen == segment;
    var isAccount := p.isAccount || p.isLeaf;
    if (METADATA in segment || RULES in segment) && !isAccount {
      return None;
    }
    AllRead(e, j);
    return Some(Segment(p.variable, p.fixed, if isAccount then Some(Account(p.metadata)) else None));
  }

  lemma {:induction false} AllRead(e: Engine, j: JSON)
    requires Members(j).Some? && CanRead(e, Members(j).value)
    requires var m := Members(j).value; METADATA in m || RULES in m ==> IsAccount(m)
    ensures ReadsAsSegment(e, j)
    ensures var p := ProgressOf(e, Members(j).value);
            SegmentOf(e, j)
            == Segment(p.variable, p.fixed, if p.isAccount || p.isLeaf then Some(Account(p.metadata)) else None)
  {
  }

  // The root has neither a variable segment, nor an account, nor patterns.
  predicate ReadsAsRoot(e: Engine, key: string, value: JSON) {
    && ValidateSegment(key) && !StartsWith(key, '$') && !StartsWith(key, '.')
    && PatternReads(e, value) && PatternOf(e, value).None?
    && ReadsAsSegment(e, value)
  }

  predicate ReadsAsChart(e: Engine, j: JSON) {
    && Members(j).Some?
    && var m := Members(j).value;
       forall k :: k in m ==> ReadsAsRoot(e, k, m[k])
  }

  ghost function ChartOf(e: Engine, j: JSON): Chart
    requires ReadsAsChart(e, j)
  {
    var m := Members(j).value;
    map k | k in m :: SegmentOf(e, m[k])
  }

  method UnmarshalRoot(e: Engine, key: string, value: JSON) returns (r: Option<Segment>)
    ensures r == if ReadsAsRoot(e, key, value) then Some(SegmentOf(e, value)) else None
  {
    if !ValidateSegment(key) || StartsWith(key, '$') || StartsWith(key, '.') {
      return None;
    }
    if Members(value).None? || PATTERN in Members(value).value {
      return None;
    }
    r := UnmarshalSegment(e, value);
  }

  method UnmarshalChart(e: Engine, j: JSON) returns (r: Option<Chart>)
    ensures r == if ReadsAsChart(e, j) then Some(ChartOf(e, j)) else None
  {
    if Members(j).None? {
      return None;
    }
    var segment := Members(j).value;
    var left := segment.Keys;
    var out: Chart := map[];
    while left != {}
      invariant left <= segment.Keys
      invariant forall k :: k in segment && k !in left ==> ReadsAsRoot(e, k, segment[k])
      invariant out == map k | k in segment && k !in left :: SegmentOf(e, segment[k])
    {
      var key :| key in left;
      left := left - {key};
      var seg := UnmarshalRoot(e, key, segment[key]);
      if seg.None? {
        return None;
      }
      out := out[key := seg.value];
    }
    assert out == ChartOf(e, j);
    return Some(out);
  }

  // Writing.

  function EncodeDefault(value: Option<string>): JSON {
    JObject(if value.Some? then map["default" := JString(value.value)] else map[])
  }

  function EncodeMetadata(metadata: map<string, Option<string>>): JSON {
    JObject(map k | k in metadata :: EncodeDefault(metadata[k]))
  }

  function WithAccount(m: map<string, JSON>, s: Segment): map<string, JSON> {
    if s.account.None? then m
    else
      var metadata := s.account.value.metadata;
      var n := if metadata.Some? then m[METADATA := EncodeMetadata(metadata.value)] else m;
      if s.fixed != map[] || s.variable.Some? then n[SELF := JObject(map[])] else n
  }

  function WithPattern(m: map<string, JSON>, pattern: Option<string>): map<string, JSON> {
    if pattern.Some? then m[PATTERN := JString(pattern.value)] else m
  }

  function EncodeFixed(s: Segment): map<string, JSON>
    decreases s, 0
  {
    map k | k in s.fixed :: Encode(s.fixed[k], None)
  }

  function EncodeMembers(s: Segment): map<string, JSON>
    decreases s, 1
  {
    var m := EncodeFixed(s);
    var n := if s.variable.None? then m
             else m["$" + s.variable.value.name := Encode(s.variable.value.segment, s.variable.value.pattern)];
    WithAccount(n, s)
  }

  // A segment, with the pattern its parent holds for it.
  function Encode(s: Segment, pattern: Option<string>): JSON
    decreases s, 2
  {
    JObject(WithPattern(EncodeMembers(s), pattern))
  }

  function EncodeChart(c: Chart): JSON {
    JObject(map k | k in c :: Encode(c[k], None))
  }

  method MarshalFixed(s: Segment) returns (out: map<string, JSON>)
    ensures out == EncodeFixed(s)
    decreases s, 0
  {
    out := map[];
    var left := s.fixed.Keys;
    while left != {}
      invariant left <= s.fixed.Keys
      invariant out == map k | k in s.fixed && k !in left :: Encode(s.fixed[k], None)
    {
      var key :| key in left;
      left := left - {key};
      var serialized := MarshalSegment(s.fixed[key], None);
      out := out[key := serialized];
    }
    assert out == EncodeFixed(s);
  }

  method MarshalObject(s: Segment) returns (out: map<string, JSON>)
    ensures out == EncodeMembers(s)
    decreases s, 1
  {
    out := MarshalFixed(s);
    if s.variable.Some? {
      var variable := s.variable.value;
      var serialized := MarshalSegment(variable.segment, variable.pattern);
      out := out["$" + variable.name := serialized];
    }
    if s.account.Some? {
      if s.account.value.metadata.Some? {
        out := out[METADATA := EncodeMetadata(s.account.value.metadata.value)];
      }
      if 0 < |s.fixed| || s.variable.Some? {
        out := out[SELF := JObject(map[])];
      }
    }
  }

  method MarshalSegment(s: Segment, pattern: Option<string>) returns (j: JSON)
    ensures j == Encode(s, pattern)
    decreases s, 2
  {
    var out := MarshalObject(s);
    if pattern.Some? {
      out := out[PATTERN := JString(pattern.value)];
    }
    return JObject(out);
  }

  method MarshalChart(c: Chart) returns (j: JSON)
    ensures j == EncodeChart(c)
  {
    var out: map<string, JSON> := map[];
    var left := c.Keys;
    while left != {}
      invariant left <= c.Keys
      invariant out == map k | k in c && k !in left :: Encode(c[k], None)
    {
      var key :| key in left;
      left := left - {key};
      var serialized := MarshalSegment(c[key], None);
      out := out[key := serialized];
    }
    return JObject(out);
  }
}
