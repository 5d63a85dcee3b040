/** The interactive session of main.py's `__main__` block (lines 138-215) with its
    terminal input, randomness and LLM reply passed in: confirm the proposal ID, then
    add samples until the user answers no. */
module Session {
  import opened Wrappers
  import opened Seqs
  import opened Dicts
  import opened Json
  import opened Base58
  import opened Samples
  import opened Replies

  /** What one pass of the adding loop reads: the line typed at "Do you want to add a
      sample?" and, used only when it confirms, the four random bytes of the sample ID,
      the free-text details and the LLM's reply already parsed by `json.loads`. */
  datatype Line = Line(text: string, entropy: Entropy, details: string, response: Value)

  /** The same pass with the typed line read as the program reads it (`Classify`). */
  datatype Turn = Turn(answer: Answer, entropy: Entropy, details: string, response: Value)

  /** How the loop hears a line. */
  function Hear(l: Line): (t: Turn)
    ensures t.answer == Yes <==> Says(l.text, YesWords)
    ensures t.answer == No <==> Says(l.text, NoWords)
    ensures (t.entropy, t.details, t.response) == (l.entropy, l.details, l.response)
  {
    ClassifyMeaning(l.text);
    Turn(Classify(l.text), l.entropy, l.details, l.response)
  }

  /** Every line heard in order. */
  function HearAll(lines: seq<Line>): (turns: seq<Turn>)
    ensures |turns| == |lines|
    ensures forall i | 0 <= i < |lines| :: turns[i] == Hear(lines[i])
  {
    seq(|lines|, i requires 0 <= i < |lines| => Hear(lines[i]))
  }

  /** The four bytes `os.urandom(4)` returns. */
  type Entropy = bs: seq<Byte> | |bs| == EntropyBytes witness [0, 0, 0, 0]

  /** Where the loop stands, with the store as the sample file holds it. */
  datatype State =
    | Adding(store: Store)    // still asking "Do you want to add a sample?"
    | Finished(store: Store)  // the user answered no
    | Crashed(store: Store)   // the reply was not a JSON object: `TypeError`, file untouched

  /** The whole session: aborted at the proposal check, or the state the loop reached. */
  datatype Exit = Aborted | Ran(state: State)

  /** The ID `get_random_sample_hash` makes from the turn's random bytes: at most three
      alphabet characters, none of them a leading `1`, empty only for four zero bytes. */
  function SampleId(t: Turn): (id: string)
    ensures |id| <= IdLength
    ensures forall i | 0 <= i < |id| :: InAlphabet(id[i])
    ensures id == [] <==> FromBigEndian(t.entropy) == 0
    ensures id != [] ==> id[0] != '1'
  {
    FourBytesRange();
    Encode(FromBigEndian(t.entropy))
  }

  /** One pass of the `while adding_samples` loop. */
  function Step(store: Store, t: Turn): (s: State)
    ensures t.answer == Other ==> s == Adding(store)
    ensures t.answer == No ==> s == Finished(store)
    ensures s.Finished? <==> t.answer == No
    ensures s.Crashed? <==> t.answer == Yes && !t.response.Object?
    ensures s.Crashed? ==> s.store == store
  {
    match t.answer
    case Yes =>
      (match AddSample(store, SampleId(t), t.response, t.details)
       case Some(store') => Adding(store')
       case None => Crashed(store))
    case No => Finished(store)
    case Other => Adding(store)
  }

  /** A confirmed turn with an object reply stores the record under the drawn ID and
      leaves every other sample as it was. */
  lemma StepAddsRecord(store: Store, t: Turn)
    requires t.answer == Yes && t.response.Object?
    ensures Step(store, t).Adding?
    ensures Get(Step(store, t).store, SampleId(t)).Some?
    ensures RecordOf(Get(Step(store, t).store, SampleId(t)).value, t.response, t.details)
    ensures forall k | k != SampleId(t) :: Get(Step(store, t).store, k) == Get(store, k)
  {
  }

  /** The loop over a sequence of turns; it stops reading at the first answer that ends it. */
  function Run(store: Store, turns: seq<Turn>): State
    decreases |turns|
  {
    if turns == [] then Adding(store)
    else match Step(store, turns[0])
      case Adding(store') => Run(store', turns[1..])
      case other => other
  }

  /** The loop is still asking after the turns only if none of them declined and every
      confirmed one came with a JSON object reply. */
  lemma {:induction false} RunStillAsking(store: Store, turns: seq<Turn>)
    ensures Run(store, turns).Adding? ==> forall i | 0 <= i < |turns| ::
      turns[i].answer != No && (turns[i].answer == Yes ==> turns[i].response.Object?)
    decreases |turns|
  {
    if turns != [] {
      var s := Step(store, turns[0]);
      RunUnfold(store, turns);
      if s.Adding? {
        RunStillAsking(s.store, turns[1..]);
        assert forall i | 1 <= i < |turns| :: turns[i] == turns[1..][i - 1];
      }
    }
  }

  /** The loop ends only on a turn that ends it, and `i` is that turn: it finishes on a
      turn that declined, and crashes on a confirmed turn whose reply was not a JSON
      object. */
  lemma {:induction false} RunEndsOn(store: Store, turns: seq<Turn>) returns (i: nat)
    ensures !Run(store, turns).Adding? ==> i < |turns|
    ensures Run(store, turns).Finished? ==> turns[i].answer == No
    ensures Run(store, turns).Crashed? ==> turns[i].answer == Yes && !turns[i].response.Object?
    decreases |turns|
  {
    i := 0;
    if turns != [] {
      var s := Step(store, turns[0]);
      RunUnfold(store, turns);
      if s.Adding? {
        var j := RunEndsOn(s.store, turns[1..]);
        i := j + 1;
        if j < |turns| - 1 {
          TailAt(turns, j);
        }
      }
    }
  }

  /** The proposal check: only `y`/`yes` goes on (anything else exits with status 1),
      with the existing sample file or, when there is none, a new empty one. */
  function Begin(answer: string, existing: Option<Store>): (r: Option<Store>)
    ensures r.Some? <==> Says(answer, YesWords)
    ensures r.Some? ==> r.value == existing.GetOr([])
  {
    ClassifyMeaning(answer);
    if Classify(answer) == Yes then Some(existing.GetOr([])) else None
  }

  /** The whole program: it runs the adding loop exactly when the proposal is confirmed,
      starting from the existing samples or from none. */
  function Main(answer: string, existing: Option<Store>, lines: seq<Line>): (r: Exit)
    ensures r.Ran? <==> Says(answer, YesWords)
    ensures r.Ran? ==> r.state == Run(existing.GetOr([]), HearAll(lines))
  {
    match Begin(answer, existing)
    case None => Aborted
    case Some(store) => Ran(Run(store, HearAll(lines)))
  }

  /** No sample ID ever leaves the store: a new sample either adds an ID or, when its
      ID is already taken, replaces that sample's record. */
  lemma {:induction false} RunKeepsIds(store: Store, turns: seq<Turn>, k: string)
    requires k in Keys(store)
    ensures k in Keys(Run(store, turns).store)
    decreases |turns|
  {
    if turns != [] {
      var s := Step(store, turns[0]);
      StepKeepsIds(store, turns[0], k);
      RunUnfold(store, turns);
      if s.Adding? {
        RunKeepsIds(s.store, turns[1..], k);
      }
    }
  }

  /** One pass never drops an ID. */
  lemma StepKeepsIds(store: Store, t: Turn, k: string)
    ensures k in Keys(store) ==> k in Keys(Step(store, t).store)
  {
    if t.answer == Yes && t.response.Object? {
      assert Step(store, t).store == AddSample(store, SampleId(t), t.response, t.details).value;
    }
  }

  /** One pass adds at most the ID it drew, and only when the answer said yes. */
  lemma StepIds(store: Store, t: Turn, k: string)
    requires k in Keys(Step(store, t).store)
    ensures k in Keys(store) || (t.answer == Yes && SampleId(t) == k)
  {
    if t.answer == Yes && t.response.Object? {
      assert Step(store, t).store == AddSample(store, SampleId(t), t.response, t.details).value;
    }
  }

  /** The turn confirmed a new sample and drew the ID `k` for it. */
  predicate Draws(t: Turn, k: string) {
    t.answer == Yes && SampleId(t) == k
  }

  /** Every ID in the final store was there at the start or was drawn on a turn that
      said yes; `i` is that turn. */
  lemma RunNewIds(store: Store, turns: seq<Turn>, k: string) returns (i: nat)
    requires k in Keys(Run(store, turns).store)
    ensures k !in Keys(store) ==> i < |turns| && Draws(turns[i], k)
  {
    var cur, n := store, 0;
    i := 0;
    while n < |turns|
      invariant n <= |turns|
      invariant k !in Keys(store) ==> k !in Keys(cur)
      invariant k in Keys(Run(cur, turns[n..]).store)
      decreases |turns| - n
    {
      var more, rest := FirstStepIds(cur, turns[n..], k);
      if !more {
        i := n;
        assert turns[n..][0] == turns[n];
        return;
      }
      assert turns[n..][1..] == turns[n + 1..];
      cur, n := rest, n + 1;
    }
  }

  /** The first turn either drew `k` or had it already, or `k` is still to come
      (`more`), from the store `rest` that turn left. */
  lemma FirstStepIds(store: Store, turns: seq<Turn>, k: string) returns (more: bool, rest: Store)
    requires turns != [] && k in Keys(Run(store, turns).store)
    ensures more ==> k !in Keys(store) && k !in Keys(rest)
    ensures more ==> k in Keys(Run(rest, turns[1..]).store)
    ensures !more ==> k in Keys(store) || Draws(turns[0], k)
  {
    var s := Step(store, turns[0]);
    RunUnfold(store, turns);
    StepKeepsIds(store, turns[0], k);
    more := s.Adding? && k !in Keys(s.store);
    rest := s.store;
    if !more {
      StepIds(store, turns[0], k);
    }
  }

  /** Answers that neither confirm nor decline leave the store as it was. */
  lemma {:induction false} RunWithoutYes(store: Store, turns: seq<Turn>)
    requires forall i | 0 <= i < |turns| :: turns[i].answer != Yes
    ensures Run(store, turns).store == store
    ensures !Run(store, turns).Crashed?
    decreases |turns|
  {
    if turns != [] {
      RunWithoutYes(store, turns[1..]);
    }
  }

  lemma RunUnfold(store: Store, turns: seq<Turn>)
    requires turns != []
    ensures Step(store, turns[0]).Adding? ==> Run(store, turns) == Run(Step(store, turns[0]).store, turns[1..])
    ensures !Step(store, turns[0]).Adding? ==> Run(store, turns) == Step(store, turns[0])
  {
  }

  /** Once the loop has ended, nothing typed afterwards is read: the first `k` turns
      decide the outcome of the whole sequence. */
  lemma {:induction false} RunStopsWhenEnded(store: Store, turns: seq<Turn>, k: nat)
    requires k <= |turns|
    requires !Run(store, turns[..k]).Adding?
    ensures Run(store, turns) == Run(store, turns[..k])
    decreases k
  {
    SliceShift(turns, k);
    RunUnfold(store, turns);
    RunUnfold(store, turns[..k]);
    var s := Step(store, turns[0]);
    if s.Adding? {
      RunStopsWhenEnded(s.store, turns[1..], k - 1);
    }
  }

  /** A session that gets past the proposal check keeps every sample ID the file already
      held (the record under an ID can still be replaced, see `CollisionReplacesRecord`). */
  lemma SessionKeepsExistingSamples(answer: string, existing: Store, lines: seq<Line>, k: string)
    requires k in Keys(existing)
    ensures Main(answer, Some(existing), lines).Ran? <==> Says(answer, YesWords)
    ensures Main(answer, Some(existing), lines).Ran? ==> k in Keys(Main(answer, Some(existing), lines).state.store)
  {
    if Begin(answer, Some(existing)).Some? {
      RunKeepsIds(existing, HearAll(lines), k);
    }
  }

  /** One pass leaves the record under `k` alone unless it confirmed and drew `k`. */
  lemma StepKeepsRecord(store: Store, t: Turn, k: string)
    requires !Draws(t, k)
    ensures Get(Step(store, t).store, k) == Get(store, k)
  {
    if t.answer == Yes && t.response.Object? {
      assert Step(store, t).store == AddSample(store, SampleId(t), t.response, t.details).value;
    }
  }

  /** A sample keeps its record through the loop unless some confirmed turn draws its
      ID, in which case `update` overwrites it. */
  lemma {:induction false} RunKeepsRecord(store: Store, turns: seq<Turn>, k: string)
    requires forall i | 0 <= i < |turns| :: !Draws(turns[i], k)
    ensures Get(Run(store, turns).store, k) == Get(store, k)
    decreases |turns|
  {
    if turns != [] {
      var s := Step(store, turns[0]);
      StepKeepsRecord(store, turns[0], k);
      RunUnfold(store, turns);
      if s.Adding? {
        RunKeepsRecord(s.store, turns[1..], k);
      }
    }
  }

  /** A drawn ID that is already in the store replaces that sample: the bytes
      `27 1F 35 A0` give the ID `211`, so confirming a new sample over a store holding
      `211` loses the old record while the ID list stays the same. */
  lemma CollisionReplacesRecord()
    ensures
      var before := Object([("name", Str("old"))]);
      var store: Store := [("211", before)];
      var t := Hear(Line("y", [0x27, 0x1F, 0x35, 0xA0], "d", Object([("name", Str("new"))])));
      && Keys(Step(store, t).store) == ["211"]
      && Get(Step(store, t).store, "211") == Some(Object([("name", Str("new")), (UserInputKey, Str("d"))]))
      && Get(store, "211") == Some(before)
  {
    var before := Object([("name", Str("old"))]);
    var store: Store := [("211", before)];
    PlainYes();
    var t := Hear(Line("y", [0x27, 0x1F, 0x35, 0xA0], "d", Object([("name", Str("new"))])));
    var id := DrawsCollidingId(t);
    var fields := NewFieldsWithInput();
    OneSample("211", before);
    StepStores(store, t);
  }

  lemma OneSample(id: string, rec: Value)
    ensures Keys([(id, rec)]) == [id] && Get([(id, rec)], id) == Some(rec)
  {
    assert Keys([(id, rec)]) == [id];
  }

  /** A confirmed turn with an object reply stores exactly the `update` of main.py. */
  lemma StepStores(store: Store, t: Turn)
    requires t.answer == Yes && t.response.Object?
    ensures Step(store, t) == Adding(Put(store, SampleId(t), Object(Put(t.response.fields, UserInputKey, Str(t.details)))))
  {
  }

  /** The reply's fields with the user's text added after them. */
  lemma NewFieldsWithInput() returns (fields: Dict<Value>)
    ensures fields == Put([("name", Str("new"))], UserInputKey, Str("d"))
    ensures fields == [("name", Str("new")), (UserInputKey, Str("d"))]
  {
    assert Keys([("name", Str("new"))]) == ["name"];
    fields := Put([("name", Str("new"))], UserInputKey, Str("d"));
  }

  /** The bytes `27 1F 35 A0` draw the ID `211`. */
  lemma DrawsCollidingId(t: Turn) returns (id: string)
    requires t.entropy == [0x27, 0x1F, 0x35, 0xA0]
    ensures SampleId(t) == id == "211"
  {
    CollidingEntropy(t.entropy);
    LeadingDigitsOfPow5(0);
    id := "211";
  }

  lemma PlainYes()
    ensures Classify("y") == Yes
  {
    assert !IsSpace('y');
    assert LeadingSpace("y") == 0;
    assert BeforeTrailingSpace("y") == 1;
    assert Strip("y") == "y";
    assert LowerChar('y') == 'y';
    assert Lower("y") == "y";
  }

  lemma CollidingEntropy(bs: seq<Byte>)
    requires bs == [0x27, 0x1F, 0x35, 0xA0]
    ensures FromBigEndian(bs) == 656356768
  {
    assert FromBigEndian(bs[..1]) == 0x27 by {
      assert bs[..1][..0] == [];
    }
    assert FromBigEndian(bs[..2]) == 0x271F by {
      assert bs[..2][..1] == bs[..1];
    }
    assert FromBigEndian(bs[..3]) == 0x271F35 by {
      assert bs[..3][..2] == bs[..2];
    }
    assert bs[..3] == bs[..|bs| - 1];
  }
}
