/** The shape a filled-in sample template must have: the checks test.py makes on the
    LLM's reply (lines 45-73), which main.py leaves as a to-do before storing a sample. */
module ResponseCheck {
  import opened Wrappers
  import opened Seqs
  import opened Dicts
  import opened Json

  const SampleName: string := "Sample name"
  const Substrate: string := "Substrate"
  const Geometry: string := "Geometry"
  const Puck: string := "Puck"
  const Detectors: string := "Detectors"
  const Energy: string := "Energy (eV)"
  const Temperature: string := "Temperature (K)"
  const MagneticField: string := "Magnetic Field"

  /** The keys a reply must have, in this order. */
  const ExpectedKeys: seq<string> :=
    [SampleName, Substrate, Geometry, Puck, Detectors, Energy, Temperature, MagneticField]

  /** The cameras a reply may name. */
  const KnownDetectors: seq<Value> := [Str("MTE3"), Str("Andor")]

  /** Open bounds on energies (eV) and temperatures (K). */
  const EnergyLow: real := 10.0
  const EnergyHigh: real := 10000.0
  const TemperatureLow: real := 0.0
  const TemperatureHigh: real := 1000.0

  /** Why a reply is rejected: the first of the test's assertions that fails. */
  datatype Failure =
    | NotAnObject                 // the reply has no `.keys()`
    | WrongKeys                   // keys differ from `ExpectedKeys` (in content or order)
    | NotAString(field: string)
    | NotAList(field: string)
    | NotABoolean                 // "Magnetic Field"
    | EnergyNotNumeric
    | EnergyOutOfRange
    | TemperatureNotNumeric
    | TemperatureOutOfRange
    | UnknownDetector

  /** The number a value compares as, if `isinstance(v, (int, float))` holds of it.
      Python's `bool` is a subclass of `int`, so `true` and `false` count as 1 and 0. */
  function AsNumber(v: Value): (r: Option<real>)
    ensures r.Some? <==> v.Bool? || v.Int? || v.Float?
    ensures v.Bool? ==> r.Some? && (r.value == 1.0 <==> v.b) && (r.value == 0.0 <==> !v.b)
    ensures v.Int? ==> r.Some? && r.value == v.i as real
    ensures v.Float? ==> r.Some? && r.value == v.f
  {
    match v
    case Bool(b) => Some(if b then 1.0 else 0.0)
    case Int(i) => Some(i as real)
    case Float(f) => Some(f)
    case _ => None
  }

  predicate IsNumber(v: Value) {
    AsNumber(v).Some?
  }

  /** `lo < v < hi` for a number `v`. */
  predicate Between(v: Value, lo: real, hi: real)
    requires IsNumber(v)
  {
    lo < AsNumber(v).value < hi
  }

  /** `reply[name]` of an object reply (`Null` where there is nothing to read). */
  function Member(reply: Value, name: string): Value {
    if reply.Object? then GetOr(reply.fields, name, Null) else Null
  }

  /** No key of the template repeats. */
  lemma ExpectedKeysDistinct()
    ensures Distinct(ExpectedKeys)
  {
    var ks := ExpectedKeys;
    assert ks[0][1] == 'a' && ks[1][1] == 'u';
    forall i, j | 0 <= i < j < |ks| ensures ks[i] != ks[j] {
      if i != 0 || j != 1 {
        assert ks[i][0] != ks[j][0];
      }
    }
  }

  /** An object with the template's keys holds its `i`th value under the `i`th key. */
  lemma MemberAt(reply: Value, i: nat)
    requires reply.Object? && Keys(reply.fields) == ExpectedKeys && i < |ExpectedKeys|
    ensures Member(reply, ExpectedKeys[i]) == reply.fields[i].1
  {
    ExpectedKeysDistinct();
    GetAt(reply.fields, i);
  }

  /** An object with the template's keys, read by position. */
  lemma MembersByPosition(reply: Value)
    requires reply.Object? && Keys(reply.fields) == ExpectedKeys
    ensures |reply.fields| == 8
    ensures Member(reply, SampleName) == reply.fields[0].1
    ensures Member(reply, Substrate) == reply.fields[1].1
    ensures Member(reply, Geometry) == reply.fields[2].1
    ensures Member(reply, Puck) == reply.fields[3].1
    ensures Member(reply, Detectors) == reply.fields[4].1
    ensures Member(reply, Energy) == reply.fields[5].1
    ensures Member(reply, Temperature) == reply.fields[6].1
    ensures Member(reply, MagneticField) == reply.fields[7].1
  {
    MemberAt(reply, 0);
    MemberAt(reply, 1);
    MemberAt(reply, 2);
    MemberAt(reply, 3);
    MemberAt(reply, 4);
    MemberAt(reply, 5);
    MemberAt(reply, 6);
    MemberAt(reply, 7);
  }

  /** The elements of a list value (none for anything else). */
  function Items(v: Value): seq<Value> {
    if v.Array? then v.items else []
  }

  /** The types the test demands of a reply: an object with exactly the expected keys,
      four strings, three lists and a boolean. */
  predicate WellShaped(reply: Value) {
    && reply.Object?
    && Keys(reply.fields) == ExpectedKeys
    && Member(reply, SampleName).Str?
    && Member(reply, Substrate).Str?
    && Member(reply, Geometry).Str?
    && Member(reply, Puck).Str?
    && Member(reply, Detectors).Array?
    && Member(reply, Energy).Array?
    && Member(reply, Temperature).Array?
    && Member(reply, MagneticField).Bool?
  }

  /** The ranges the test demands of the three lists' elements. */
  predicate ContentsOk(energies: seq<Value>, temperatures: seq<Value>, detectors: seq<Value>) {
    && (forall e | e in energies :: IsNumber(e) && Between(e, EnergyLow, EnergyHigh))
    && (forall t | t in temperatures :: IsNumber(t) && Between(t, TemperatureLow, TemperatureHigh))
    && (forall d | d in detectors :: d in KnownDetectors)
  }

  /** Everything the test demands of a reply, stated all at once. */
  predicate Valid(reply: Value) {
    && WellShaped(reply)
    && ContentsOk(Items(Member(reply, Energy)), Items(Member(reply, Temperature)), Items(Member(reply, Detectors)))
  }

  /** The type assertions, in the order the test makes them. */
  function CheckShape(reply: Value): (r: Outcome<Failure>)
    ensures r.Pass? <==> WellShaped(reply)
    ensures r == Fail(NotAnObject) <==> !reply.Object?
    ensures r == Fail(WrongKeys) <==> reply.Object? && Keys(reply.fields) != ExpectedKeys
    ensures r == Fail(NotAString(SampleName)) <==>
      reply.Object? && Keys(reply.fields) == ExpectedKeys && !Member(reply, SampleName).Str?
    ensures r == Fail(NotAString(Substrate)) <==>
      reply.Object? && Keys(reply.fields) == ExpectedKeys && Member(reply, SampleName).Str?
      && !Member(reply, Substrate).Str?
    ensures r == Fail(NotAString(Geometry)) <==>
      reply.Object? && Keys(reply.fields) == ExpectedKeys && Member(reply, SampleName).Str?
      && Member(reply, Substrate).Str? && !Member(reply, Geometry).Str?
    ensures r == Fail(NotAString(Puck)) <==>
      reply.Object? && Keys(reply.fields) == ExpectedKeys && Member(reply, SampleName).Str?
      && Member(reply, Substrate).Str? && Member(reply, Geometry).Str? && !Member(reply, Puck).Str?
    ensures r == Fail(NotAList(Detectors)) <==>
      reply.Object? && Keys(reply.fields) == ExpectedKeys && Member(reply, SampleName).Str?
      && Member(reply, Substrate).Str? && Member(reply, Geometry).Str? && Member(reply, Puck).Str?
      && !Member(reply, Detectors).Array?
    ensures r == Fail(NotAList(Energy)) <==>
      reply.Object? && Keys(reply.fields) == ExpectedKeys && Member(reply, SampleName).Str?
      && Member(reply, Substrate).Str? && Member(reply, Geometry).Str? && Member(reply, Puck).Str?
      && Member(reply, Detectors).Array? && !Member(reply, Energy).Array?
    ensures r == Fail(NotAList(Temperature)) <==>
      reply.Object? && Keys(reply.fields) == ExpectedKeys && Member(reply, SampleName).Str?
      && Member(reply, Substrate).Str? && Member(reply, Geometry).Str? && Member(reply, Puck).Str?
      && Member(reply, Detectors).Array? && Member(reply, Energy).Array? && !Member(reply, Temperature).Array?
    ensures r == Fail(NotABoolean) <==>
      reply.Object? && Keys(reply.fields) == ExpectedKeys && Member(reply, SampleName).Str?
      && Member(reply, Substrate).Str? && Member(reply, Geometry).Str? && Member(reply, Puck).Str?
      && Member(reply, Detectors).Array? && Member(reply, Energy).Array? && Member(reply, Temperature).Array?
      && !Member(reply, MagneticField).Bool?
    ensures r.Fail? ==> r.error !in {EnergyNotNumeric, EnergyOutOfRange, TemperatureNotNumeric, TemperatureOutOfRange, UnknownDetector}
  {
    if !reply.Object? then Fail(NotAnObject)
    else if Keys(reply.fields) != ExpectedKeys then Fail(WrongKeys)
    else if !Member(reply, SampleName).Str? then Fail(NotAString(SampleName))
    else if !Member(reply, Substrate).Str? then Fail(NotAString(Substrate))
    else if !Member(reply, Geometry).Str? then Fail(NotAString(Geometry))
    else if !Member(reply, Puck).Str? then Fail(NotAString(Puck))
    else if !Member(reply, Detectors).Array? then Fail(NotAList(Detectors))
    else if !Member(reply, Energy).Array? then Fail(NotAList(Energy))
    else if !Member(reply, Temperature).Array? then Fail(NotAList(Temperature))
    else if !Member(reply, MagneticField).Bool? then Fail(NotABoolean)
    else Pass
  }

  /** The element assertions, in the order the test makes them: energies, then
      temperatures, then detectors; for each list, types before ranges. */
  function CheckContents(energies: seq<Value>, temperatures: seq<Value>, detectors: seq<Value>): (r: Outcome<Failure>)
    ensures r.Pass? <==> ContentsOk(energies, temperatures, detectors)
    ensures r == Fail(EnergyNotNumeric) <==> exists e | e in energies :: !IsNumber(e)
    ensures r == Fail(EnergyOutOfRange) <==>
      (forall e | e in energies :: IsNumber(e)) &&
      exists e | e in energies :: !Between(e, EnergyLow, EnergyHigh)
    ensures r == Fail(TemperatureNotNumeric) <==>
      (forall e | e in energies :: IsNumber(e) && Between(e, EnergyLow, EnergyHigh)) &&
      exists t | t in temperatures :: !IsNumber(t)
    ensures r == Fail(TemperatureOutOfRange) <==>
      (forall e | e in energies :: IsNumber(e) && Between(e, EnergyLow, EnergyHigh)) &&
      (forall t | t in temperatures :: IsNumber(t)) &&
      exists t | t in temperatures :: !Between(t, TemperatureLow, TemperatureHigh)
    ensures r == Fail(UnknownDetector) <==>
      (forall e | e in energies :: IsNumber(e) && Between(e, EnergyLow, EnergyHigh)) &&
      (forall t | t in temperatures :: IsNumber(t) && Between(t, TemperatureLow, TemperatureHigh)) &&
      exists d | d in detectors :: d !in KnownDetectors
    ensures r.Fail? ==> r.error in {EnergyNotNumeric, EnergyOutOfRange, TemperatureNotNumeric, TemperatureOutOfRange, UnknownDetector}
  {
    if exists e | e in energies :: !IsNumber(e) then Fail(EnergyNotNumeric)
    else if exists e | e in energies :: !Between(e, EnergyLow, EnergyHigh) then Fail(EnergyOutOfRange)
    else if exists t | t in temperatures :: !IsNumber(t) then Fail(TemperatureNotNumeric)
    else if exists t | t in temperatures :: !Between(t, TemperatureLow, TemperatureHigh) then Fail(TemperatureOutOfRange)
    else if exists d | d in detectors :: d !in KnownDetectors then Fail(UnknownDetector)
    else Pass
  }

  /** The whole test: the first assertion to fail decides the verdict. */
  function Validate(reply: Value): (r: Outcome<Failure>)
    ensures r.Pass? <==> Valid(reply)
    ensures r == Fail(NotAnObject) <==> !reply.Object?
    ensures r == Fail(WrongKeys) <==> reply.Object? && Keys(reply.fields) != ExpectedKeys
    ensures r == Fail(UnknownDetector) <==>
      WellShaped(reply) &&
      (forall e | e in Items(Member(reply, Energy)) :: IsNumber(e) && Between(e, EnergyLow, EnergyHigh)) &&
      (forall t | t in Items(Member(reply, Temperature)) :: IsNumber(t) && Between(t, TemperatureLow, TemperatureHigh)) &&
      exists d | d in Items(Member(reply, Detectors)) :: d !in KnownDetectors
    ensures !WellShaped(reply) ==> r == CheckShape(reply)
  {
    var shape := CheckShape(reply);
    if shape.Fail? then shape
    else CheckContents(Items(Member(reply, Energy)), Items(Member(reply, Temperature)), Items(Member(reply, Detectors)))
  }

  /** A filled-in sample template, as the agent means it to be read. */
  datatype Detector = MTE3 | Andor

  datatype SampleRequest = SampleRequest(
    name: string, substrate: string, geometry: string, puck: string,
    detectors: seq<Detector>, energies: seq<real>, temperatures: seq<real>,
    magneticField: bool)

  function DetectorName(d: Detector): string {
    match d
    case MTE3 => "MTE3"
    case Andor => "Andor"
  }

  /** The reply that spells out a request, keys in template order. */
  function ToJson(q: SampleRequest): (reply: Value)
    ensures reply.Object? && Keys(reply.fields) == ExpectedKeys
  {
    Object([
      (SampleName, Str(q.name)),
      (Substrate, Str(q.substrate)),
      (Geometry, Str(q.geometry)),
      (Puck, Str(q.puck)),
      (Detectors, Array(seq(|q.detectors|, i requires 0 <= i < |q.detectors| => Str(DetectorName(q.detectors[i]))))),
      (Energy, Array(seq(|q.energies|, i requires 0 <= i < |q.energies| => Float(q.energies[i])))),
      (Temperature, Array(seq(|q.temperatures|, i requires 0 <= i < |q.temperatures| => Float(q.temperatures[i])))),
      (MagneticField, Bool(q.magneticField))])
  }

  /** The request's numbers lie in the open ranges the test allows. */
  predicate InRange(q: SampleRequest) {
    && (forall i | 0 <= i < |q.energies| :: EnergyLow < q.energies[i] < EnergyHigh)
    && (forall i | 0 <= i < |q.temperatures| :: TemperatureLow < q.temperatures[i] < TemperatureHigh)
  }

  /** Reading a spelled-out request back by key finds each of its fields. */
  lemma ToJsonMembers(q: SampleRequest)
    ensures Member(ToJson(q), SampleName) == Str(q.name)
    ensures Member(ToJson(q), Substrate) == Str(q.substrate)
    ensures Member(ToJson(q), Geometry) == Str(q.geometry)
    ensures Member(ToJson(q), Puck) == Str(q.puck)
    ensures Member(ToJson(q), Detectors).Array? && |Items(Member(ToJson(q), Detectors))| == |q.detectors|
    ensures forall i | 0 <= i < |q.detectors| :: Items(Member(ToJson(q), Detectors))[i] == Str(DetectorName(q.detectors[i]))
    ensures Member(ToJson(q), Energy).Array? && |Items(Member(ToJson(q), Energy))| == |q.energies|
    ensures forall i | 0 <= i < |q.energies| :: Items(Member(ToJson(q), Energy))[i] == Float(q.energies[i])
    ensures Member(ToJson(q), Temperature).Array? && |Items(Member(ToJson(q), Temperature))| == |q.temperatures|
    ensures forall i | 0 <= i < |q.temperatures| :: Items(Member(ToJson(q), Temperature))[i] == Float(q.temperatures[i])
    ensures Member(ToJson(q), MagneticField) == Bool(q.magneticField)
  {
    MembersByPosition(ToJson(q));
  }

  /** Once the shape is right, only the elements of the three lists matter. */
  lemma ValidateShaped(reply: Value)
    requires WellShaped(reply)
    ensures Validate(reply) ==
      CheckContents(Items(Member(reply, Energy)), Items(Member(reply, Temperature)), Items(Member(reply, Detectors)))
  {
  }

  /** A list of floats passes a range check exactly when each of the floats is in range. */
  lemma FloatsBetween(xs: seq<real>, vs: seq<Value>, lo: real, hi: real)
    requires |vs| == |xs| && forall i | 0 <= i < |xs| :: vs[i] == Float(xs[i])
    ensures (forall v | v in vs :: IsNumber(v) && Between(v, lo, hi)) <==> (forall i | 0 <= i < |xs| :: lo < xs[i] < hi)
  {
    if forall i | 0 <= i < |xs| :: lo < xs[i] < hi {
      forall v | v in vs ensures IsNumber(v) && Between(v, lo, hi) {
        var i :| 0 <= i < |vs| && vs[i] == v;
      }
    } else {
      var i :| 0 <= i < |xs| && !(lo < xs[i] < hi);
      assert vs[i] in vs;
    }
  }

  /** Every detector a request can name is one the test knows. */
  lemma DetectorsKnown(ds: seq<Detector>, vs: seq<Value>)
    requires |vs| == |ds| && forall i | 0 <= i < |ds| :: vs[i] == Str(DetectorName(ds[i]))
    ensures forall v | v in vs :: v in KnownDetectors
  {
    forall v | v in vs ensures v in KnownDetectors {
      var i :| 0 <= i < |vs| && vs[i] == v;
      assert v == Str(DetectorName(ds[i]));
    }
  }

  /** A request spelled out as a reply passes the test exactly when its numbers are in
      range: any detector list, strings and field setting are accepted. */
  lemma ValidateRequest(q: SampleRequest)
    ensures Validate(ToJson(q)) == Pass <==> InRange(q)
  {
    var reply := ToJson(q);
    RequestShaped(q);
    ValidateShaped(reply);
    RequestContents(q);
  }

  /** A spelled-out request has the shape the test demands. */
  lemma RequestShaped(q: SampleRequest)
    ensures WellShaped(ToJson(q))
  {
    ToJsonMembers(q);
  }

  /** The lists of a spelled-out request pass their checks exactly when its numbers are in range. */
  lemma RequestContents(q: SampleRequest)
    ensures
      var reply := ToJson(q);
      ContentsOk(Items(Member(reply, Energy)), Items(Member(reply, Temperature)), Items(Member(reply, Detectors)))
      <==> InRange(q)
  {
    var reply := ToJson(q);
    ToJsonMembers(q);
    ListsOfRequest(q, Items(Member(reply, Energy)), Items(Member(reply, Temperature)), Items(Member(reply, Detectors)));
  }

  lemma ListsOfRequest(q: SampleRequest, es: seq<Value>, ts: seq<Value>, ds: seq<Value>)
    requires |es| == |q.energies| && forall i | 0 <= i < |es| :: es[i] == Float(q.energies[i])
    requires |ts| == |q.temperatures| && forall i | 0 <= i < |ts| :: ts[i] == Float(q.temperatures[i])
    requires |ds| == |q.detectors| && forall i | 0 <= i < |ds| :: ds[i] == Str(DetectorName(q.detectors[i]))
    ensures ContentsOk(es, ts, ds) <==> InRange(q)
  {
    FloatsBetween(q.energies, es, EnergyLow, EnergyHigh);
    FloatsBetween(q.temperatures, ts, TemperatureLow, TemperatureHigh);
    DetectorsKnown(q.detectors, ds);
  }

  /** A reply with a well-formed shape whose lists are all empty passes. */
  lemma EmptyListsPass(reply: Value)
    requires WellShaped(reply)
    requires Items(Member(reply, Energy)) == [] && Items(Member(reply, Temperature)) == []
    requires Items(Member(reply, Detectors)) == []
    ensures Validate(reply) == Pass
  {
  }

  /** Because a Python boolean is a number, `[true]` is an acceptable temperature list
      (0 < 1 < 1000). */
  lemma TrueIsATemperature(q: SampleRequest)
    ensures Validate(WithLists(q, [], [Bool(true)])) == Pass
  {
    ValidateWithLists(q, [], [Bool(true)]);
    ListsVerdicts();
  }

  /** ... but not an energy, since 10 < 1 fails. */
  lemma TrueIsNotAnEnergy(q: SampleRequest)
    ensures Validate(WithLists(q, [Bool(true)], [])) == Fail(EnergyOutOfRange)
  {
    ValidateWithLists(q, [Bool(true)], []);
    ListsVerdicts();
  }

  /** The bounds are strict: 10 eV itself is out of range. */
  lemma LowestEnergyExcluded(q: SampleRequest)
    ensures Validate(WithLists(q, [Int(10)], [])) == Fail(EnergyOutOfRange)
  {
    ValidateWithLists(q, [Int(10)], []);
    ListsVerdicts();
  }

  /** A temperature written as a string is not a number. */
  lemma QuotedTemperatureRejected(q: SampleRequest)
    ensures Validate(WithLists(q, [], [Str("300")])) == Fail(TemperatureNotNumeric)
  {
    ValidateWithLists(q, [], [Str("300")]);
    ListsVerdicts();
  }

  /** The element checks on the four lists above. */
  lemma ListsVerdicts()
    ensures CheckContents([], [Bool(true)], []) == Pass
    ensures CheckContents([Bool(true)], [], []) == Fail(EnergyOutOfRange)
    ensures CheckContents([Int(10)], [], []) == Fail(EnergyOutOfRange)
    ensures CheckContents([], [Str("300")], []) == Fail(TemperatureNotNumeric)
  {
    assert Between(Bool(true), TemperatureLow, TemperatureHigh);
    assert !Between(Bool(true), EnergyLow, EnergyHigh) && Bool(true) in [Bool(true)];
    assert !Between(Int(10), EnergyLow, EnergyHigh) && Int(10) in [Int(10)];
    assert !IsNumber(Str("300")) && Str("300") in [Str("300")];
  }

  /** The reply for `q` with its energy and temperature lists replaced and no detectors. */
  function WithLists(q: SampleRequest, energies: seq<Value>, temperatures: seq<Value>): Value {
    var fields := ToJson(q).fields;
    Object(fields[4 := (Detectors, Array([]))][5 := (Energy, Array(energies))][6 := (Temperature, Array(temperatures))])
  }

  lemma WithListsShape(q: SampleRequest, energies: seq<Value>, temperatures: seq<Value>)
    ensures WellShaped(WithLists(q, energies, temperatures))
    ensures Items(Member(WithLists(q, energies, temperatures), Energy)) == energies
    ensures Items(Member(WithLists(q, energies, temperatures), Temperature)) == temperatures
    ensures Items(Member(WithLists(q, energies, temperatures), Detectors)) == []
  {
    var reply := WithLists(q, energies, temperatures);
    assert Keys(reply.fields) == Keys(ToJson(q).fields);
    MembersByPosition(reply);
  }

  /** With the shape fixed, the verdict on such a reply is the verdict on its lists. */
  lemma ValidateWithLists(q: SampleRequest, energies: seq<Value>, temperatures: seq<Value>)
    ensures Validate(WithLists(q, energies, temperatures)) == CheckContents(energies, temperatures, [])
  {
    WithListsShape(q, energies, temperatures);
    ValidateShaped(WithLists(q, energies, temperatures));
  }
}
