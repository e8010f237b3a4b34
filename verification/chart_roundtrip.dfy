// Reading undoes writing, for every chart that can be read.
module ChartRoundTrip {
  import opened Wrappers
  import opened Charts

  // What reading establishes.
  predicate WellFormed(e: Engine, s: Segment)
    decreases s
  {
    && (forall k :: k in s.fixed ==> IsName(k) && WellFormed(e, s.fixed[k]))
    && (s.variable.Some? ==>
          var v := s.variable.value;
          && IsName(v.name) && WellFormed(e, v.segment)
          && (v.pattern.Some? ==> e.compiles(v.pattern.value)))
    && (s.fixed == map[] && s.variable.None? ==> s.account.Some?)
  }

  predicate WellFormedChart(e: Engine, c: Chart) {
    forall k :: k in c ==> IsName(k) && WellFormed(e, c[k])
  }

  lemma {:induction false} SegmentOfWellFormed(e: Engine, j: JSON)
    requires ReadsAsSegment(e, j)
    ensures WellFormed(e, SegmentOf(e, j))
    decreases j
  {
    var m, s := Members(j).value, SegmentOf(e, j);
    forall k | k in s.fixed
      ensures IsName(k) && WellFormed(e, s.fixed[k])
    {
      assert k in FixedOf(e, j);
      assert ReadsAsMember(e, k, m[k]);
      SegmentOfWellFormed(e, m[k]);
    }
    if k :| k in m && IsVariable(k) {
      VariableIs(e, j, k);
      assert ReadsAsMember(e, k, m[k]);
      SegmentOfWellFormed(e, m[k]);
    } else if s.fixed == map[] {
      assert FixedOf(e, j).Keys == set k | k in m && IsFixed(k);
      assert IsLeaf(m) by {
        forall k | k in m
          ensures !IsSubsegment(k)
        {
          assert !IsFixed(k);
        }
      }
    }
  }

  lemma {:induction false} ChartOfWellFormed(e: Engine, j: JSON)
    requires ReadsAsChart(e, j)
    ensures WellFormedChart(e, ChartOf(e, j))
  {
    var m, c := Members(j).value, ChartOf(e, j);
    forall k | k in c
      ensures IsName(k) && WellFormed(e, c[k])
    {
      assert ReadsAsRoot(e, k, m[k]);
      SegmentOfWellFormed(e, m[k]);
    }
  }

  // Writing, seen key by key.

  lemma {:induction false} NamesAreFixed(k: string)
    requires IsName(k)
    ensures ValidateSegment(k) && IsFixed(k)
    ensures k != SELF && k != METADATA && k != RULES && k != PATTERN
  {
    assert IsNameChar(k[0]);
  }

  lemma {:induction false} VariableKey(name: string)
    requires IsName(name)
    ensures var k := "$" + name; ValidateSegment(k) && IsSubsegment(k) && IsVariable(k) && k[1..] == name
  {
  }

  lemma {:induction false} MetadataRoundTrip(metadata: map<string, Option<string>>)
    ensures ReadsAsMetadata(EncodeMetadata(metadata))
    ensures MetadataOf(EncodeMetadata(metadata)) == Some(metadata)
  {
    var j := EncodeMetadata(metadata);
    forall k | k in metadata
      ensures ReadsAsDefault(j.members[k]) && DefaultOf(j.members[k]) == metadata[k]
    {
    }
    assert MetadataOf(j).value == metadata;
  }

  function VariableName(s: Segment): string
    requires s.variable.Some?
  {
    "$" + s.variable.value.name
  }

  // The keys written for a segment never collide.
  predicate KeysApart(s: Segment) {
    && METADATA !in s.fixed && SELF !in s.fixed && PATTERN !in s.fixed && RULES !in s.fixed
    && (s.variable.Some? ==>
          var k := VariableName(s);
          k !in s.fixed && k != METADATA && k != SELF && k != PATTERN && k != RULES)
  }

  lemma {:induction false} WellFormedKeysApart(e: Engine, s: Segment)
    requires WellFormed(e, s)
    ensures KeysApart(s)
  {
    forall k | k in s.fixed
      ensures k[0] != '.' && k[0] != '$'
    {
      assert IsNameChar(k[0]);
    }
    assert METADATA[0] == SELF[0] == PATTERN[0] == RULES[0] == '.';
    assert s.variable.Some? ==> VariableName(s)[0] == '$';
  }

  lemma {:induction false} PropertiesApart()
    ensures METADATA != SELF && METADATA != PATTERN && METADATA != RULES
    ensures SELF != PATTERN && SELF != RULES && PATTERN != RULES
    ensures !IsSubsegment(METADATA) && !IsSubsegment(SELF) && !IsSubsegment(PATTERN)
  {
    assert |METADATA| == 9 && |SELF| == 5 && |PATTERN| == 8 && |RULES| == 6;
  }

  // What an object holds that was written for s and its pattern, where the fixed
  // segments were written as f and the variable segment as v.
  predicate Holds(s: Segment, f: map<string, JSON>, v: JSON, pattern: Option<string>, m: map<string, JSON>) {
    && f.Keys == s.fixed.Keys
    && (forall k :: k in f ==> k in m && m[k] == f[k])
    && (s.variable.Some? ==> VariableName(s) in m && m[VariableName(s)] == v)
    && HoldsProperties(s, pattern, m)
    && forall k :: k in m ==> IsKeyOf(s, k)
  }

  predicate HoldsProperties(s: Segment, pattern: Option<string>, m: map<string, JSON>) {
    && (METADATA in m <==> s.account.Some? && s.account.value.metadata.Some?)
    && (METADATA in m ==> m[METADATA] == EncodeMetadata(s.account.value.metadata.value))
    && (SELF in m <==> s.account.Some? && (s.fixed != map[] || s.variable.Some?))
    && (SELF in m ==> m[SELF] == JObject(map[]))
    && (PATTERN in m <==> pattern.Some?)
    && (PATTERN in m ==> m[PATTERN] == JString(pattern.value))
    && RULES !in m
  }

  predicate IsKeyOf(s: Segment, k: string) {
    k in s.fixed || (s.variable.Some? && k == VariableName(s)) || k == METADATA || k == SELF || k == PATTERN
  }

  function WithVariable(f: map<string, JSON>, v: JSON, s: Segment): map<string, JSON> {
    if s.variable.None? then f else f[VariableName(s) := v]
  }

  function Assemble(s: Segment, f: map<string, JSON>, v: JSON, pattern: Option<string>): map<string, JSON> {
    WithPattern(WithAccount(WithVariable(f, v, s), s), pattern)
  }

  lemma {:induction false} FixedWritten(s: Segment, f: map<string, JSON>, v: JSON, pattern: Option<string>, k: string)
    requires KeysApart(s) && f.Keys == s.fixed.Keys && k in f
    ensures k in Assemble(s, f, v, pattern) && Assemble(s, f, v, pattern)[k] == f[k]
  {
    assert k in s.fixed;
  }

  lemma {:induction false} VariableWritten(s: Segment, f: map<string, JSON>, v: JSON, pattern: Option<string>)
    requires KeysApart(s) && f.Keys == s.fixed.Keys && s.variable.Some?
    ensures VariableName(s) in Assemble(s, f, v, pattern) && Assemble(s, f, v, pattern)[VariableName(s)] == v
  {
  }

  lemma {:induction false} PropertiesWritten(s: Segment, f: map<string, JSON>, v: JSON, pattern: Option<string>)
    requires KeysApart(s) && f.Keys == s.fixed.Keys
    ensures HoldsProperties(s, pattern, Assemble(s, f, v, pattern))
  {
    PropertiesApart();
    assert METADATA !in f.Keys && SELF !in f.Keys && PATTERN !in f.Keys && RULES !in f.Keys;
  }

  lemma {:induction false} KeyWritten(s: Segment, f: map<string, JSON>, v: JSON, pattern: Option<string>, k: string)
    requires f.Keys == s.fixed.Keys && k in Assemble(s, f, v, pattern)
    ensures IsKeyOf(s, k)
  {
    assert k in f ==> k in s.fixed;
  }

  lemma {:induction false} WrittenOver(s: Segment, f: map<string, JSON>, v: JSON, pattern: Option<string>)
    requires KeysApart(s) && f.Keys == s.fixed.Keys
    ensures Holds(s, f, v, pattern, Assemble(s, f, v, pattern))
  {
    forall k | k in f
      ensures k in Assemble(s, f, v, pattern) && Assemble(s, f, v, pattern)[k] == f[k]
    {
      FixedWritten(s, f, v, pattern, k);
    }
    if s.variable.Some? {
      VariableWritten(s, f, v, pattern);
    }
    PropertiesWritten(s, f, v, pattern);
    forall k | k in Assemble(s, f, v, pattern)
      ensures IsKeyOf(s, k)
    {
      KeyWritten(s, f, v, pattern, k);
    }
  }

  function EncodeVariable(s: Segment): JSON {
    if s.variable.None? then JNull else Encode(s.variable.value.segment, s.variable.value.pattern)
  }

  lemma {:induction false} Written(e: Engine, s: Segment, pattern: Option<string>)
    requires WellFormed(e, s)
    ensures Encode(s, pattern).JObject?
    ensures Holds(s, EncodeFixed(s), EncodeVariable(s), pattern, Encode(s, pattern).members)
  {
    WellFormedKeysApart(e, s);
    WrittenOver(s, EncodeFixed(s), EncodeVariable(s), pattern);
  }

  ghost predicate FixedReads(e: Engine, k: string, value: JSON, child: Segment) {
    IsFixed(k) && ReadsAsMember(e, k, value) && SegmentOf(e, value) == child
  }

  ghost predicate VariableReads(e: Engine, value: JSON, variable: VariableSegment) {
    var k := "$" + variable.name;
    && IsVariable(k) && ReadsAsMember(e, k, value)
    && variable == VariableSegment(SegmentOf(e, value), PatternOf(e, value), k[1..])
  }

  ghost predicate PartsRead(e: Engine, s: Segment, m: map<string, JSON>) {
    && (forall k :: k in s.fixed ==> k in m && FixedReads(e, k, m[k], s.fixed[k]))
    && (s.variable.Some? ==> VariableName(s) in m && VariableReads(e, m[VariableName(s)], s.variable.value))
  }

  lemma {:induction false} FixedIsRead(e: Engine, k: string, s: Segment)
    requires IsName(k) && RoundTrips(e, s, None)
    ensures FixedReads(e, k, Encode(s, None), s)
  {
    NamesAreFixed(k);
  }

  lemma {:induction false} VariableIsRead(e: Engine, variable: VariableSegment)
    requires IsName(variable.name) && RoundTrips(e, variable.segment, variable.pattern)
    ensures VariableReads(e, Encode(variable.segment, variable.pattern), variable)
  {
    VariableKey(variable.name);
  }

  lemma {:induction false} MemberAssembles(e: Engine, s: Segment, f: map<string, JSON>, v: JSON,
                                           pattern: Option<string>, m: map<string, JSON>, k: string)
    requires Holds(s, f, v, pattern, m) && PartsRead(e, s, m) && k in m
    ensures ReadsAsMember(e, k, m[k])
  {
    PropertiesApart();
    assert IsKeyOf(s, k);
    if k == METADATA {
      MetadataRoundTrip(s.account.value.metadata.value);
    }
  }

  lemma {:induction false} MembersAssemble(e: Engine, s: Segment, f: map<string, JSON>, v: JSON,
                                           pattern: Option<string>, m: map<string, JSON>)
    requires Holds(s, f, v, pattern, m) && PartsRead(e, s, m)
    ensures MembersRead(e, JObject(m))
    ensures METADATA in m ==> ReadsAsMetadata(m[METADATA]) && MetadataOf(m[METADATA]) == s.account.value.metadata
  {
    forall k | k in m
      ensures ReadsAsMember(e, k, m[k])
    {
      MemberAssembles(e, s, f, v, pattern, m, k);
    }
    if METADATA in m {
      MetadataRoundTrip(s.account.value.metadata.value);
    }
  }

  lemma {:induction false} FixedKeys(e: Engine, s: Segment, f: map<string, JSON>, v: JSON,
                                     pattern: Option<string>, m: map<string, JSON>, k: string)
    requires Holds(s, f, v, pattern, m) && PartsRead(e, s, m)
    ensures k in m && IsFixed(k) <==> k in s.fixed
  {
    PropertiesApart();
    assert k in m ==> IsKeyOf(s, k);
  }

  lemma {:induction false} FixedAssemble(e: Engine, s: Segment, f: map<string, JSON>, v: JSON,
                                         pattern: Option<string>, m: map<string, JSON>)
    requires Holds(s, f, v, pattern, m) && PartsRead(e, s, m) && MembersRead(e, JObject(m))
    ensures FixedOf(e, JObject(m)) == s.fixed
  {
    forall k
      ensures k in m && IsFixed(k) <==> k in s.fixed
    {
      FixedKeys(e, s, f, v, pattern, m, k);
    }
  }

  lemma {:induction false} VariableAssembles(e: Engine, s: Segment, f: map<string, JSON>, v: JSON,
                                             pattern: Option<string>, m: map<string, JSON>)
    requires Holds(s, f, v, pattern, m) && PartsRead(e, s, m) && MembersRead(e, JObject(m))
    ensures OneVariable(m) && VariableOf(e, JObject(m)) == s.variable
  {
    PropertiesApart();
    forall k | k in m && IsVariable(k)
      ensures s.variable.Some? && k == VariableName(s)
    {
      assert IsKeyOf(s, k);
    }
    if s.variable.Some? {
      VariableIs(e, JObject(m), VariableName(s));
    }
  }

  lemma {:induction false} AccountAssembles(e: Engine, s: Segment, f: map<string, JSON>, v: JSON,
                                            pattern: Option<string>, m: map<string, JSON>)
    requires WellFormed(e, s) && Holds(s, f, v, pattern, m) && PartsRead(e, s, m)
    ensures IsAccount(m) <==> s.account.Some?
  {
    PropertiesApart();
    if s.fixed == map[] && s.variable.None? {
      forall k | k in m
        ensures !IsSubsegment(k)
      {
        assert IsKeyOf(s, k);
      }
    } else if s.variable.Some? {
      assert VariableName(s) in m && IsSubsegment(VariableName(s));
    } else {
      var k :| k in s.fixed;
      assert k in m && IsSubsegment(k);
    }
  }

  lemma {:induction false} Assembled(e: Engine, s: Segment, f: map<string, JSON>, v: JSON,
                                     pattern: Option<string>, m: map<string, JSON>)
    requires WellFormed(e, s) && Holds(s, f, v, pattern, m) && PartsRead(e, s, m)
    requires pattern.Some? ==> e.compiles(pattern.value)
    ensures ReadsAsSegment(e, JObject(m)) && SegmentOf(e, JObject(m)) == s
    ensures PatternReads(e, JObject(m)) && PatternOf(e, JObject(m)) == pattern
  {
    MembersAssemble(e, s, f, v, pattern, m);
    FixedAssemble(e, s, f, v, pattern, m);
    VariableAssembles(e, s, f, v, pattern, m);
    AccountAssembles(e, s, f, v, pattern, m);
    PatternAssembles(e, s, pattern, m);
    SegmentAssembles(e, s, m);
  }

  lemma {:induction false} PatternAssembles(e: Engine, s: Segment, pattern: Option<string>, m: map<string, JSON>)
    requires HoldsProperties(s, pattern, m)
    requires pattern.Some? ==> e.compiles(pattern.value)
    ensures PatternReads(e, JObject(m)) && PatternOf(e, JObject(m)) == pattern
  {
  }

  lemma {:induction false} SegmentAssembles(e: Engine, s: Segment, m: map<string, JSON>)
    requires MembersRead(e, JObject(m)) && OneVariable(m) && (IsAccount(m) <==> s.account.Some?)
    requires FixedOf(e, JObject(m)) == s.fixed && VariableOf(e, JObject(m)) == s.variable
    requires METADATA in m ==> s.account.Some? && ReadsAsMetadata(m[METADATA])
    requires METADATA in m ==> MetadataOf(m[METADATA]) == s.account.value.metadata
    requires METADATA !in m && s.account.Some? ==> s.account.value.metadata.None?
    requires RULES !in m
    ensures ReadsAsSegment(e, JObject(m)) && SegmentOf(e, JObject(m)) == s
  {
  }

  // The document written for s reads as s, and its pattern reads back too.
  ghost predicate RoundTrips(e: Engine, s: Segment, pattern: Option<string>) {
    var j := Encode(s, pattern);
    && ReadsAsSegment(e, j) && SegmentOf(e, j) == s
    && PatternReads(e, j) && PatternOf(e, j) == pattern
  }

  // Main result: every well-formed segment round trips.
  lemma {:induction false} SegmentRoundTrip(e: Engine, s: Segment, pattern: Option<string>)
    requires WellFormed(e, s)
    requires pattern.Some? ==> e.compiles(pattern.value)
    ensures RoundTrips(e, s, pattern)
    decreases s
  {
    forall k | k in s.fixed
      ensures FixedReads(e, k, EncodeFixed(s)[k], s.fixed[k])
    {
      SegmentRoundTrip(e, s.fixed[k], None);
      FixedIsRead(e, k, s.fixed[k]);
    }
    if s.variable.Some? {
      SegmentRoundTrip(e, s.variable.value.segment, s.variable.value.pattern);
      VariableIsRead(e, s.variable.value);
    }
    Written(e, s, pattern);
    Assembled(e, s, EncodeFixed(s), EncodeVariable(s), pattern, Encode(s, pattern).members);
  }

  lemma {:induction false} RootIsRead(e: Engine, k: string, s: Segment)
    requires IsName(k) && RoundTrips(e, s, None)
    ensures ReadsAsRoot(e, k, Encode(s, None)) && SegmentOf(e, Encode(s, None)) == s
  {
    NamesAreFixed(k);
    assert IsNameChar(k[0]);
  }

  // Main result: every chart that can be read is written as a document that reads as the
  // same chart, and nothing else can be read than the well-formed charts.
  lemma {:induction false} ChartRoundTrips(e: Engine, c: Chart)
    requires WellFormedChart(e, c)
    ensures ReadsAsChart(e, EncodeChart(c)) && ChartOf(e, EncodeChart(c)) == c
  {
    var j := EncodeChart(c);
    forall k | k in c
      ensures ReadsAsRoot(e, k, j.members[k]) && SegmentOf(e, j.members[k]) == c[k]
    {
      SegmentRoundTrip(e, c[k], None);
      RootIsRead(e, k, c[k]);
    }
    assert ChartOf(e, j) == c;
  }

  lemma {:induction false} ReadWriteRead(e: Engine, j: JSON)
    requires ReadsAsChart(e, j)
    ensures var c := ChartOf(e, j);
            ReadsAsChart(e, EncodeChart(c)) && ChartOf(e, EncodeChart(c)) == c
  {
    ChartOfWellFormed(e, j);
    ChartRoundTrips(e, ChartOf(e, j));
  }

  lemma {:induction false} ReadableIffWellFormed(e: Engine, c: Chart)
    ensures WellFormedChart(e, c) <==> exists j :: ReadsAsChart(e, j) && ChartOf(e, j) == c
  {
    if WellFormedChart(e, c) {
      ChartRoundTrips(e, c);
    }
    forall j | ReadsAsChart(e, j) && ChartOf(e, j) == c
      ensures WellFormedChart(e, c)
    {
      ChartOfWellFormed(e, j);
    }
  }
}
