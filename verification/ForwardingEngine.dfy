/**
  The forwarding processors: for every valid sample taken from an input, compute a key
  (the input's name, or the text of one of the sample's members), find the key in the
  forwarding table, and write the sample to the output found.
 */
module ForwardingEngine {
  import opened Wrappers
  import opened MatchingTable
  import opened Subsequences
  import opened CStrings
  import Glob

  datatype Kind =
    | Boolean | UInt8 | UInt16 | UInt32 | UInt64 | Char8 | Int16 | Int32 | Int64
    | Float32 | Float64 | Text | Unsupported

  type Value = seq<bv8>

  /** A dynamic sample: the members of its type, and the values of those that are set. */
  datatype Data = Data(members: map<string, Kind>, values: map<string, Value>)

  datatype Sample = Sample(valid: bool, data: Data)

  /** An input of the route; `Err` when taking its samples throws. */
  datatype Input = Input(name: string, taken: Result<seq<Sample>>)

  /** What the surrounding service decides: the outputs that exist, the writes that throw,
      and the text of a value asked for as one kind and stored as another. */
  datatype Route = Route(
    outputs: set<string>,
    rejects: (string, Data) -> bool,
    format: (Kind, Kind, Value) -> Result<string>)

  /** Where keys come from: the two processors of the plug-in. */
  datatype KeySource = ByName | ByValue(members: seq<Entry>)

  datatype Delivery = Delivery(out: string, data: Data)

  // ----- keys ----------------------------------------------------------------------

  /** The type information kept per input and member. */
  datatype MemberValue = MemberValue(name: string, kind: Kind)

  /** Construction throws when the type lacks the member or its kind has no format. */
  function NewMemberValue(name: string, data: Data): Result<MemberValue> {
    if name in data.members && data.members[name] != Unsupported
    then Ok(MemberValue(name, data.members[name]))
    else Err
  }

  function ToText(route: Route, v: MemberValue, data: Data): Result<string> {
    if v.name in data.values && v.name in data.members
    then route.format(v.kind, data.members[v.name], data.values[v.name])
    else Err
  }

  /** The key of a sample, computed without any cache. */
  function FreshKey(m: Relation, source: KeySource, route: Route, input: string, data: Data): Result<string> {
    match source
    case ByName => Ok(input)
    case ByValue(members) =>
      match Lookup(m, members, input)
      case None => Err
      case Some(member) =>
        match NewMemberValue(member, data)
        case Err => Err
        case Ok(v) => ToText(route, v, data)
  }

  /** A sample's key is the name of its input, or the text of its own value of the member configured
      for the input, formatted as the kind the member has. */
  lemma KeyExactly(m: Relation, source: KeySource, route: Route, input: string, data: Data, member: string)
    ensures source.ByName? ==> FreshKey(m, source, route, input, data) == Ok(input)
    ensures source.ByValue? && Lookup(m, source.members, input) == None ==>
            FreshKey(m, source, route, input, data) == Err
    ensures source.ByValue? && Lookup(m, source.members, input) == Some(member) ==>
            FreshKey(m, source, route, input, data) ==
            if member in data.members && data.members[member] != Unsupported && member in data.values
            then route.format(data.members[member], data.members[member], data.values[member]) else Err
  {
  }

  type Cache = map<string, map<string, MemberValue>>

  /** `cache_input_member`: the input gets a map of its own even when what follows throws. */
  function CacheStep(m: Relation, members: seq<Entry>, cache: Cache, input: string, data: Data)
    : (Cache, Result<MemberValue>)
  {
    var c := if input in cache then cache else cache[input := map[]];
    match Lookup(m, members, input)
    case None => (c, Err)
    case Some(member) =>
      if member in c[input] then (c, Ok(c[input][member]))
      else
        match NewMemberValue(member, data)
        case Err => (c, Err)
        case Ok(v) => (c[input := c[input][member := v]], Ok(v))
  }

  function CachedKey(m: Relation, source: KeySource, route: Route, cache: Cache, input: string, data: Data)
    : (Cache, Result<string>)
  {
    match source
    case ByName => (cache, Ok(input))
    case ByValue(members) =>
      var (c, r) := CacheStep(m, members, cache, input, data);
      (c, match r case Err => Err case Ok(v) => ToText(route, v, data))
  }

  // ----- the cache agrees with the types -----------------------------------------------

  type Types = string -> map<string, Kind>

  predicate EntryAgrees(types: Types, input: string, member: string, v: MemberValue) {
    && v.name == member
    && member in types(input)
    && v.kind == types(input)[member] != Unsupported
  }

  predicate CacheAgrees(types: Types, cache: Cache) {
    forall input, member :: input in cache && member in cache[input] ==>
      EntryAgrees(types, input, member, cache[input][member])
  }

  lemma CachedKeyIsFresh(m: Relation, source: KeySource, route: Route, types: Types, cache: Cache,
                         input: string, data: Data)
    requires CacheAgrees(types, cache) && data.members == types(input)
    ensures CacheAgrees(types, CachedKey(m, source, route, cache, input, data).0)
    ensures CachedKey(m, source, route, cache, input, data).1 == FreshKey(m, source, route, input, data)
  {
    if source.ByValue? {
      var c := CacheStep(m, source.members, cache, input, data).0;
      forall i, k | i in c && k in c[i] ensures EntryAgrees(types, i, k, c[i][k]) {
        if i in cache && k in cache[i] {
          assert EntryAgrees(types, i, k, cache[i][k]);
        }
      }
    }
  }

  function CacheAfter(m: Relation, source: KeySource, route: Route, history: seq<(string, Data)>): Cache {
    if history == [] then map[]
    else
      var n := |history| - 1;
      CachedKey(m, source, route, CacheAfter(m, source, route, history[..n]), history[n].0, history[n].1).0
  }

  /** After any history of samples, failed ones included, the cache agrees with the types of
      the inputs and yields the key that would be computed afresh. */
  lemma {:induction false} HistoryKeepsKeysFresh(m: Relation, source: KeySource, route: Route, types: Types,
                                                 history: seq<(string, Data)>, input: string, data: Data)
    requires forall i :: 0 <= i < |history| ==> history[i].1.members == types(history[i].0)
    requires data.members == types(input)
    ensures var cache := CacheAfter(m, source, route, history);
            && CacheAgrees(types, cache)
            && CachedKey(m, source, route, cache, input, data).1 == FreshKey(m, source, route, input, data)
  {
    if history != [] {
      var n := |history| - 1;
      HistoryKeepsKeysFresh(m, source, route, types, history[..n], history[n].0, history[n].1);
      CachedKeyIsFresh(m, source, route, types, CacheAfter(m, source, route, history[..n]),
                       history[n].0, history[n].1);
    }
    CachedKeyIsFresh(m, source, route, types, CacheAfter(m, source, route, history), input, data);
  }

  // ----- inputs that deliver several types ----------------------------------------------------

  /** The kind of `member` in the first sample of `input` whose type supports it. */
  function FirstKind(history: seq<(string, Data)>, input: string, member: string): Option<Kind> {
    if history == [] then None
    else
      var n := |history| - 1;
      var earlier := FirstKind(history[..n], input, member);
      if earlier.Some? then earlier
      else
        match NewMemberValue(member, history[n].1)
        case Ok(v) => if history[n].0 == input then Some(v.kind) else None
        case Err => None
  }

  function CacheEntry(cache: Cache, input: string, member: string): Option<MemberValue> {
    if input in cache && member in cache[input] then Some(cache[input][member]) else None
  }

  /** The first sample of the input whose type supports the member fixes the kind for good. */
  lemma {:induction false} CacheHoldsFirstKind(m: Relation, members: seq<Entry>, route: Route,
                                               history: seq<(string, Data)>, input: string, member: string)
    requires Lookup(m, members, input) == Some(member)
    ensures var kind := FirstKind(history, input, member);
            CacheEntry(CacheAfter(m, ByValue(members), route, history), input, member) ==
            if kind.Some? then Some(MemberValue(member, kind.value)) else None
    ensures FirstKind(history, input, member) != Some(Unsupported)
  {
    if history != [] {
      var n := |history| - 1;
      CacheHoldsFirstKind(m, members, route, history[..n], input, member);
    }
  }

  /** The sample's own kind of the member is the one the input's history has fixed, where that
      matters at all. */
  predicate KindKept(m: Relation, source: KeySource, history: seq<(string, Data)>, input: string, data: Data) {
    source.ByValue? && Lookup(m, source.members, input).Some? ==>
      var member := Lookup(m, source.members, input).value;
      var kind := FirstKind(history, input, member);
      kind.Some? && member in data.values && member in data.members ==> kind.value == data.members[member]
  }

  lemma KeptKindGivesFreshKey(m: Relation, source: KeySource, route: Route, history: seq<(string, Data)>,
                              input: string, data: Data)
    requires KindKept(m, source, history, input, data)
    ensures KeyIsFresh(m, source, route, history, input, data)
  {
    if source.ByValue? && Lookup(m, source.members, input).Some? {
      CacheHoldsFirstKind(m, source.members, route, history, input, Lookup(m, source.members, input).value);
    }
  }

  /** The key computed with the cache the history has left is the key computed afresh. */
  predicate KeyIsFresh(m: Relation, source: KeySource, route: Route, history: seq<(string, Data)>,
                       input: string, data: Data)
  {
    CachedKey(m, source, route, CacheAfter(m, source, route, history), input, data).1 ==
    FreshKey(m, source, route, input, data)
  }

  lemma LostKindGivesOtherKey(m: Relation, source: KeySource, outputs: set<string>,
                              rejects: (string, Data) -> bool, history: seq<(string, Data)>,
                              input: string, data: Data) returns (format: (Kind, Kind, Value) -> Result<string>)
    requires !KindKept(m, source, history, input, data)
    ensures !KeyIsFresh(m, source, Route(outputs, rejects, format), history, input, data)
  {
    var member := Lookup(m, source.members, input).value;
    var kind := FirstKind(history, input, member).value;
    format := (asked: Kind, stored: Kind, v: Value) => if asked == kind then Ok("") else Err;
    CacheHoldsFirstKind(m, source.members, Route(outputs, rejects, format), history, input, member);
  }

  /** After any history, whatever types it held, the cached key is the fresh one for every way of
      formatting values exactly when the kind of the member is still the one first seen. */
  lemma FreshKeyExactly(m: Relation, source: KeySource, outputs: set<string>, rejects: (string, Data) -> bool,
                        history: seq<(string, Data)>, input: string, data: Data)
    ensures (forall format :: KeyIsFresh(m, source, Route(outputs, rejects, format), history, input, data))
            <==> KindKept(m, source, history, input, data)
  {
    if KindKept(m, source, history, input, data) {
      forall format ensures KeyIsFresh(m, source, Route(outputs, rejects, format), history, input, data) {
        KeptKindGivesFreshKey(m, source, Route(outputs, rejects, format), history, input, data);
      }
    } else {
      var format := LostKindGivesOtherKey(m, source, outputs, rejects, history, input, data);
    }
  }

  /** If one input delivers samples of two types, the cached key can differ. */
  lemma MixedTypesBreakKeys(m: Relation)
    requires m("*", "in")
    ensures var source := ByValue([Entry("*", "f")]);
            var route := Route({}, (o, d) => false, (asked, stored, v) => if asked == stored then Ok("k") else Err);
            var first, second := Data(map["f" := Int32], map[]), Data(map["f" := Text], map["f" := []]);
            var cache := CacheAfter(m, source, route, [("in", first)]);
            CachedKey(m, source, route, cache, "in", second).1 != FreshKey(m, source, route, "in", second)
  {
    var source := ByValue([Entry("*", "f")]);
    var route := Route({}, (o, d) => false, (asked, stored, v) => if asked == stored then Ok("k") else Err);
    var first := Data(map["f" := Int32], map[]);
    var history := [("in", first)];
    assert history[..0] == [];
    assert CacheAfter(m, source, route, history) ==
           CachedKey(m, source, route, map[], "in", first).0;
    assert Lookup(m, source.members, "in") == Some("f");
  }

  // ----- where a sample goes -----------------------------------------------------------

  /** Everything a delivery depends on besides the sample. */
  datatype Setup = Setup(matches: Relation, table: seq<Entry>, source: KeySource, route: Route)

  /** The output a sample reaches: its key, up to a terminator if it holds one, is looked up in the
      table.  There is one if computing its key, finding it, getting the output and
      writing all succeed. */
  function Destination(u: Setup, input: string, data: Data): Option<string> {
    match FreshKey(u.matches, u.source, u.route, input, data)
    case Err => None
    case Ok(key) =>
      match Lookup(u.matches, u.table, CString(key))
      case None => None
      case Some(out) => if out in u.route.outputs && !u.route.rejects(out, data) then Some(out) else None
  }

  predicate FirstMatch(m: Relation, es: seq<Entry>, key: string, i: nat) {
    i < |es| && m(es[i].inKey, key) && forall j :: 0 <= j < i ==> !m(es[j].inKey, key)
  }

  /** `out` is the output of the first entry whose pattern matches the key. */
  ghost predicate Routed(m: Relation, es: seq<Entry>, key: string, out: string) {
    exists i: nat :: FirstMatch(m, es, key, i) && es[i].outName == out
  }

  lemma LookupExactly(m: Relation, es: seq<Entry>, key: string, out: string)
    ensures Lookup(m, es, key) == Some(out) <==> Routed(m, es, key, out)
  {
    match Find(m, es, key)
    case None =>
    case Some(i) =>
      assert FirstMatch(m, es, key, i);
      forall j: nat | FirstMatch(m, es, key, j) ensures j == i {
      }
  }

  /** A sample reaches the output of the first entry that matches its key, if that output exists and
      takes it; otherwise none. */
  lemma DestinationExactly(u: Setup, input: string, data: Data, out: string)
    ensures Destination(u, input, data) == Some(out) <==>
            && FreshKey(u.matches, u.source, u.route, input, data).Ok?
            && Routed(u.matches, u.table, CString(FreshKey(u.matches, u.source, u.route, input, data).value), out)
            && out in u.route.outputs && !u.route.rejects(out, data)
  {
    var computed := FreshKey(u.matches, u.source, u.route, input, data);
    if computed.Ok? {
      LookupExactly(u.matches, u.table, CString(computed.value), out);
    }
  }

  function IfValid(name: string, s: Sample): seq<(string, Data)> {
    if s.valid then [(name, s.data)] else []
  }

  function ValidSamples(name: string, samples: seq<Sample>): seq<(string, Data)> {
    FlatMap(s => IfValid(name, s), samples)
  }

  function ValidOf(input: Input): seq<(string, Data)> {
    match input.taken
    case Err => []
    case Ok(samples) => ValidSamples(input.name, samples)
  }

  /** The valid samples of all inputs whose take succeeds, in order. */
  function Batch(inputs: seq<Input>): seq<(string, Data)> {
    FlatMap(ValidOf, inputs)
  }

  function DeliveryOf(u: Setup, x: (string, Data)): seq<Delivery> {
    match Destination(u, x.0, x.1)
    case None => []
    case Some(out) => [Delivery(out, x.1)]
  }

  function Deliveries(u: Setup, batch: seq<(string, Data)>): seq<Delivery> {
    FlatMap(x => DeliveryOf(u, x), batch)
  }

  ghost predicate Delivered(u: Setup, before: seq<Delivery>, now: seq<Delivery>, batch: seq<(string, Data)>) {
    now == before + Deliveries(u, batch)
  }

  lemma DeliveredThen(u: Setup, s0: seq<Delivery>, s1: seq<Delivery>, s2: seq<Delivery>,
                      a: seq<(string, Data)>, b: seq<(string, Data)>)
    requires Delivered(u, s0, s1, a) && Delivered(u, s1, s2, b)
    ensures Delivered(u, s0, s2, a + b)
  {
    FlatMapConcat(x => DeliveryOf(u, x), a, b);
    ConcatAssociative(s0, Deliveries(u, a), Deliveries(u, b));
  }

  predicate SameTypes(types: Types, inputs: seq<Input>) {
    forall i, j :: 0 <= i < |inputs| && inputs[i].taken.Ok? && 0 <= j < |inputs[i].taken.value| ==>
      inputs[i].taken.value[j].data.members == types(inputs[i].name)
  }

  class Engine {
    const matches: Relation
    const table: seq<Entry>
    const source: KeySource
    var cache: Cache
    var log: seq<Delivery>     // successful writes, in order

    constructor (m: Relation, table: seq<Entry>, source: KeySource)
      ensures matches == m && this.table == table && this.source == source
      ensures cache == map[] && log == []
    {
      matches := m;
      this.table := table;
      this.source := source;
      cache := map[];
      log := [];
    }

    /** `get_input_map`, then the cache lookup. */
    method CacheInputMember(members: seq<Entry>, input: string, data: Data) returns (r: Result<MemberValue>)
      modifies this`cache
      ensures (cache, r) == CacheStep(matches, members, old(cache), input, data)
    {
      if input !in cache {
        cache := cache[input := map[]];
      }
      var found := Lookup(matches, members, input);
      if found.None? {
        return Err;
      }
      var member := found.value;
      if member in cache[input] {
        return Ok(cache[input][member]);
      }
      r := NewMemberValue(member, data);
      if r.Ok? {
        cache := cache[input := cache[input][member := r.value]];
      }
    }

    method GetForwardingKey(route: Route, input: string, data: Data) returns (key: Result<string>)
      modifies this`cache
      ensures (cache, key) == CachedKey(matches, source, route, old(cache), input, data)
    {
      match source {
        case ByName =>
          key := Ok(input);
        case ByValue(members) =>
          var v := CacheInputMember(members, input, data);
          key := match v case Err => Err case Ok(mv) => ToText(route, mv, data);
      }
    }

    function SetupFor(route: Route): Setup {
      Setup(matches, table, source, route)
    }

    /** `forward_data`: every failure is caught and concerns this sample only. */
    method ForwardData(route: Route, input: string, data: Data, ghost types: Types)
      requires CacheAgrees(types, cache) && data.members == types(input)
      modifies this`cache, this`log
      ensures CacheAgrees(types, cache)
      ensures Delivered(SetupFor(route), old(log), log, [(input, data)])
    {
      CachedKeyIsFresh(matches, source, route, types, cache, input, data);
      ghost var batch := [(input, data)];
      assert batch[..0] == [] && Deliveries(SetupFor(route), batch[..0]) == [];
      var key := GetForwardingKey(route, input, data);
      if key.Ok? {
        var out := Lookup(matches, table, CString(key.value));
        if out.Some? && out.value in route.outputs && !route.rejects(out.value, data) {
          log := log + [Delivery(out.value, data)];
        }
      }
    }

    /** The loop over the samples taken from one input. */
    method ForwardSamples(route: Route, input: string, samples: seq<Sample>, ghost types: Types)
      requires CacheAgrees(types, cache)
      requires forall j :: 0 <= j < |samples| ==> samples[j].data.members == types(input)
      modifies this`cache, this`log
      ensures CacheAgrees(types, cache)
      ensures Delivered(SetupFor(route), old(log), log, ValidSamples(input, samples))
    {
      for j := 0 to |samples|
        invariant CacheAgrees(types, cache)
        invariant Delivered(SetupFor(route), old(log), log, ValidSamples(input, samples[..j]))
      {
        FlatMapAppend(s => IfValid(input, s), samples[..j], samples[j]);
        assert samples[..j + 1] == samples[..j] + [samples[j]];
        if samples[j].valid {
          ghost var before := log;
          ForwardData(route, input, samples[j].data, types);
          DeliveredThen(SetupFor(route), old(log), before, log,
                        ValidSamples(input, samples[..j]), [(input, samples[j].data)]);
        } else {
          assert ValidSamples(input, samples[..j + 1]) == ValidSamples(input, samples[..j]);
        }
      }
      assert samples[..|samples|] == samples;
    }

    method OnDataAvailable(route: Route, inputs: seq<Input>, ghost types: Types)
      requires CacheAgrees(types, cache) && SameTypes(types, inputs)
      modifies this`cache, this`log
      ensures CacheAgrees(types, cache)
      ensures Delivered(SetupFor(route), old(log), log, Batch(inputs))
      ensures |old(log)| <= |log| && log[..|old(log)|] == old(log)
      ensures forall out :: ReceivesExactly(SetupFor(route), inputs, out, ReceivedBy(log[|old(log)|..], out))
    {
      for i := 0 to |inputs|
        invariant CacheAgrees(types, cache)
        invariant Delivered(SetupFor(route), old(log), log, Batch(inputs[..i]))
      {
        FlatMapAppend(ValidOf, inputs[..i], inputs[i]);
        assert inputs[..i + 1] == inputs[..i] + [inputs[i]];
        match inputs[i].taken {
          case Err =>
            assert Batch(inputs[..i + 1]) == Batch(inputs[..i]);
          case Ok(samples) =>
            ghost var before := log;
            ForwardSamples(route, inputs[i].name, samples, types);
            DeliveredThen(SetupFor(route), old(log), before, log,
                          Batch(inputs[..i]), ValidSamples(inputs[i].name, samples));
        }
      }
      assert inputs[..|inputs|] == inputs;
      ghost var sent := log[|old(log)|..];
      assert sent == Deliveries(SetupFor(route), Batch(inputs));
      forall out ensures ReceivesExactly(SetupFor(route), inputs, out, ReceivedBy(sent, out)) {
        OutputReceives(SetupFor(route), inputs, out, ReceivedBy(sent, out));
      }
    }
  }

  // ----- what each output receives ------------------------------------------------------

  function DataFor(d: Delivery, out: string): seq<Data> {
    if d.out == out then [d.data] else []
  }

  function ReceivedBy(log: seq<Delivery>, out: string): seq<Data> {
    FlatMap(d => DataFor(d, out), log)
  }

  function Chosen(u: Setup, x: (string, Data), out: string): seq<Data> {
    if Destination(u, x.0, x.1) == Some(out) then [x.1] else []
  }

  /** The samples of a batch that go to `out`, in order: a decision per sample. */
  function Selected(u: Setup, batch: seq<(string, Data)>, out: string): seq<Data> {
    FlatMap(x => Chosen(u, x, out), batch)
  }

  lemma OneDelivery(u: Setup, x: (string, Data), out: string, g: Delivery -> seq<Data>)
    requires g == (d => DataFor(d, out))
    ensures FlatMap(g, DeliveryOf(u, x)) == Chosen(u, x, out)
  {
    match Destination(u, x.0, x.1)
    case None =>
    case Some(o) => FlatMapOne(g, Delivery(o, x.1));
  }

  /** An output receives the order-preserving filter of the batch. */
  lemma OutputReceivesFilter(u: Setup, batch: seq<(string, Data)>, out: string)
    ensures ReceivedBy(Deliveries(u, batch), out) == Selected(u, batch, out)
  {
    var g := d => DataFor(d, out);
    forall i | 0 <= i < |batch| ensures FlatMap(g, DeliveryOf(u, batch[i])) == Chosen(u, batch[i], out) {
      OneDelivery(u, batch[i], out, g);
    }
    FlatMapCompose(x => DeliveryOf(u, x), g, x => Chosen(u, x, out), batch);
  }

  /** A valid sample of an input whose take succeeded. */
  predicate ValidAt(inputs: seq<Input>, q: Position) {
    && q.0 < |inputs| && inputs[q.0].taken.Ok? && q.1 < |inputs[q.0].taken.value|
    && inputs[q.0].taken.value[q.1].valid
  }

  function DataAt(inputs: seq<Input>, q: Position): Data
    requires ValidAt(inputs, q)
  {
    inputs[q.0].taken.value[q.1].data
  }

  /** `ps` lists the valid samples input by input, each in order. */
  ghost predicate ValidPositions(inputs: seq<Input>, ps: seq<Position>) {
    Ordered(ps) && forall q: Position :: q in ps <==> ValidAt(inputs, q)
  }

  /** The batch consists of the samples at these positions. */
  ghost predicate BatchAt(inputs: seq<Input>, ps: seq<Position>, batch: seq<(string, Data)>) {
    && ValidPositions(inputs, ps) && |batch| == |ps|
    && forall k :: 0 <= k < |ps| ==>
         ValidAt(inputs, ps[k]) && batch[k] == (inputs[ps[k].0].name, DataAt(inputs, ps[k]))
  }

  /** `ks` are the positions of the valid samples of one input. */
  ghost predicate ValidIn(samples: seq<Sample>, ks: seq<nat>) {
    Increasing(ks) && forall j: nat :: j in ks <==> j < |samples| && samples[j].valid
  }

  lemma ValidSamplesAt(name: string, samples: seq<Sample>, xs: seq<(string, Data)>) returns (ks: seq<nat>)
    requires xs == ValidSamples(name, samples)
    ensures ValidIn(samples, ks) && |xs| == |ks|
    ensures forall m :: 0 <= m < |ks| ==> ks[m] < |samples| && xs[m] == (name, samples[ks[m]].data)
  {
    var f := s => IfValid(name, s);
    ks := FlatMapPositions(f, samples, xs);
    forall m | 0 <= m < |ks| ensures ks[m] < |samples| && samples[ks[m]].valid && xs[m] == (name, samples[ks[m]].data) {
      assert f(samples[ks[m]]) == [xs[m]];
    }
    forall j: nat | j < |samples| && samples[j].valid ensures j in ks {
      assert f(samples[j]) != [];
    }
  }

  lemma RowAdded(inputs: seq<Input>, ps: seq<Position>, batch: seq<(string, Data)>, x: Input,
                 inputs': seq<Input>, ks: seq<nat>, xs: seq<(string, Data)>, ps': seq<Position>)
    requires BatchAt(inputs, ps, batch) && inputs' == inputs + [x] && x.taken.Ok?
    requires ValidIn(x.taken.value, ks) && |xs| == |ks|
    requires forall m :: 0 <= m < |ks| ==> ks[m] < |x.taken.value| && xs[m] == (x.name, x.taken.value[ks[m]].data)
    requires ps' == ps + InRow(|inputs|, ks)
    ensures BatchAt(inputs', ps', batch + xs)
  {
    var n := |inputs|;
    OrderedRows(ps, n, ks);
    forall q: Position ensures ValidAt(inputs', q) <==> ValidAt(inputs, q) || (q.0 == n && q.1 in ks) {
    }
    forall k | 0 <= k < |ps'|
      ensures ValidAt(inputs', ps'[k]) && (batch + xs)[k] == (inputs'[ps'[k].0].name, DataAt(inputs', ps'[k]))
    {
      assert ps'[k] in ps';
      assert k >= |ps| ==> ps'[k] == (n, ks[k - |ps|]);
    }
  }

  lemma RowSkipped(inputs: seq<Input>, ps: seq<Position>, batch: seq<(string, Data)>, x: Input, inputs': seq<Input>)
    requires BatchAt(inputs, ps, batch) && inputs' == inputs + [x] && x.taken.Err?
    ensures BatchAt(inputs', ps, batch)
  {
    forall q: Position ensures ValidAt(inputs', q) <==> ValidAt(inputs, q) {
    }
  }

  lemma BatchAtNext(inputs: seq<Input>, ps: seq<Position>, batch: seq<(string, Data)>, x: Input,
                    inputs': seq<Input>, batch': seq<(string, Data)>) returns (ps': seq<Position>)
    requires BatchAt(inputs, ps, batch) && inputs' == inputs + [x] && batch' == batch + ValidOf(x)
    ensures BatchAt(inputs', ps', batch')
  {
    match x.taken {
      case Err =>
        ps' := ps;
        RowSkipped(inputs, ps, batch, x, inputs');
        assert batch' == batch;
      case Ok(samples) =>
        var ks := ValidSamplesAt(x.name, samples, ValidOf(x));
        ps' := ps + InRow(|inputs|, ks);
        RowAdded(inputs, ps, batch, x, inputs', ks, ValidOf(x), ps');
    }
  }

  lemma {:induction false} BatchPositions(inputs: seq<Input>, batch: seq<(string, Data)>) returns (ps: seq<Position>)
    requires batch == Batch(inputs)
    ensures BatchAt(inputs, ps, batch)
    decreases |inputs|
  {
    if inputs == [] {
      ps := [];
    } else {
      var n := |inputs| - 1;
      var front := BatchPositions(inputs[..n], Batch(inputs[..n]));
      ps := BatchAtNext(inputs[..n], front, Batch(inputs[..n]), inputs[n], inputs, batch);
    }
  }

  predicate GoesTo(u: Setup, inputs: seq<Input>, q: Position, out: string) {
    ValidAt(inputs, q) && Destination(u, inputs[q.0].name, DataAt(inputs, q)) == Some(out)
  }

  /** What an output receives: the data at exactly the positions of valid samples that go there, in
      order. */
  ghost predicate ReceivesExactly(u: Setup, inputs: seq<Input>, out: string, received: seq<Data>) {
    exists qs: seq<Position> :: ReceivesAt(u, inputs, out, received, qs)
  }

  ghost predicate ReceivesAt(u: Setup, inputs: seq<Input>, out: string, received: seq<Data>, qs: seq<Position>) {
    && Ordered(qs) && |received| == |qs|
    && (forall q: Position :: q in qs <==> GoesTo(u, inputs, q, out))
    && (forall k :: 0 <= k < |qs| ==> ValidAt(inputs, qs[k]) && received[k] == DataAt(inputs, qs[k]))
  }

  lemma OutputReceives(u: Setup, inputs: seq<Input>, out: string, received: seq<Data>)
    requires received == ReceivedBy(Deliveries(u, Batch(inputs)), out)
    ensures ReceivesExactly(u, inputs, out, received)
  {
    var batch := Batch(inputs);
    var ps := BatchPositions(inputs, batch);
    OutputReceivesFilter(u, batch, out);
    var ks := FlatMapPositions(x => Chosen(u, x, out), batch, received);
    var qs := seq(|ks|, m requires 0 <= m < |ks| && ks[m] < |ps| => ps[ks[m]]);
    SelectedPositions(u, inputs, out, ps, batch, ks, received, qs);
  }

  lemma SelectedPositions(u: Setup, inputs: seq<Input>, out: string, ps: seq<Position>, batch: seq<(string, Data)>,
                          ks: seq<nat>, received: seq<Data>, qs: seq<Position>)
    requires BatchAt(inputs, ps, batch) && Picked(x => Chosen(u, x, out), batch, ks, received)
    requires |qs| == |ks| && forall m :: 0 <= m < |ks| ==> ks[m] < |ps| && qs[m] == ps[ks[m]]
    ensures ReceivesAt(u, inputs, out, received, qs)
  {
    forall m | 0 <= m < |ks| ensures GoesTo(u, inputs, qs[m], out) && received[m] == DataAt(inputs, qs[m]) {
      assert Chosen(u, batch[ks[m]], out) == [received[m]];
    }
    forall q: Position | GoesTo(u, inputs, q, out) ensures q in qs {
      assert q in ps;
      var k :| 0 <= k < |ps| && ps[k] == q;
      assert Chosen(u, batch[k], out) != [];
      assert k in ks;
      var m :| 0 <= m < |ks| && ks[m] == k;
      assert qs[m] == q;
    }
  }

  /** Removing a sample that reaches no output changes what no output receives. */
  lemma FailedSampleAlone(u: Setup, batch: seq<(string, Data)>, i: nat)
    requires i < |batch| && Destination(u, batch[i].0, batch[i].1).None?
    ensures Deliveries(u, batch[..i] + batch[i + 1..]) ==
            Deliveries(u, batch)
  {
    FlatMapSkips(x => DeliveryOf(u, x), batch, i);
  }

  // ----- engine and table together ------------------------------------------------------------

  lemma StarOnlyReflexive(rules: seq<Entry>)
    requires forall q :: 0 <= q < |rules| ==> Glob.StarOnly(rules[q].inKey)
    ensures forall q :: 0 <= q < |rules| ==> Glob.Matches(rules[q].inKey, rules[q].inKey)
  {
    forall q | 0 <= q < |rules| ensures Glob.Matches(rules[q].inKey, rules[q].inKey) {
      Glob.SimpleReflexive(rules[q].inKey);
      Glob.SimpleMatches(rules[q].inKey, rules[q].inKey);
    }
  }

  /** With rules whose only wildcard is `*`, configured outputs that exist and writes that
      succeed, a sample is forwarded exactly when it has a key that some configured rule
      matches, and then to the output of the last rule with the same first match. */
  lemma ForwardedIffSomeRule(rules: seq<Entry>, source: KeySource, route: Route, input: string, data: Data)
    returns (r: nat)
    requires forall q :: 0 <= q < |rules| ==> Glob.StarOnly(rules[q].inKey) && rules[q].outName in route.outputs
    requires forall o, d :: !route.rejects(o, d)
    ensures var m := Glob.Matches;
            var u, key := Setup(m, Built(m, rules), source, route), FreshKey(m, source, route, input, data);
            && (Destination(u, input, data).Some? <==> key.Ok? && SomeRuleMatches(m, rules, CString(key.value)))
            && (Destination(u, input, data).Some? ==>
                  && Find(m, u.table, CString(key.value)).Some?
                  && LastRuleFor(m, u.table, rules, Find(m, u.table, CString(key.value)).value, r)
                  && Destination(u, input, data) == Some(rules[r].outName))
  {
    r := 0;
    var m := Glob.Matches;
    var key := FreshKey(m, source, route, input, data);
    if key.Ok? {
      StarOnlyCoverage(rules, CString(key.value));
      if Lookup(m, Built(m, rules), CString(key.value)).Some? {
        StarOnlyReflexive(rules);
        r := LookupGivesLastOutput(m, rules, CString(key.value));
      }
    }
  }
}
