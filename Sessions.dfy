/** The patient store of backend/index.js: the id counter `nextId`, the map
    `patients` from id to disease, `generatePatient` and the body of the
    `POST /treat` handler.

    The store is given twice. `SessionStore` is the class whose methods
    update the two fields in place, as the module-level variables of the
    source are updated; `Admit` and `Discharge` are the same two transitions
    on values, and `Run` replays a sequence of requests on them, which is
    where the properties spanning several requests are proved. Each method
    of the class is tied to its transition by its postcondition. */
module Sessions {
  import opened Text
  import opened Random
  import opened Catalog

  // ---------------------------------------------------------------------
  // Drawing the symptoms

  /** The symptoms `chooseRandom(disease.symptoms)` returns for a stream of
      samples of `Math.random()`, one per loop iteration. */
  function Picks(symptoms: seq<string>, draws: seq<Sample>): (r: seq<string>)
    requires |symptoms| > 0
    ensures |r| == |draws|
    ensures forall k :: 0 <= k < |draws| ==> r[k] == ChooseRandom(symptoms, draws[k])
  {
    seq(|draws|, k requires 0 <= k < |draws| => ChooseRandom(symptoms, draws[k]))
  }

  /** The stream of samples lets the rejection loop finish: among the
      symptoms it picks there are three different ones. The source loops
      until that happens; the model takes the samples it consumes up front. */
  predicate Completes(symptoms: seq<string>, draws: seq<Sample>) {
    |symptoms| > 0 && |FirstSeen(Picks(symptoms, draws))| >= 3
  }

  /** The rejection loop of `generatePatient`: draw a symptom, keep it unless
      it was already chosen, until three are chosen. The result is exactly
      the first three different symptoms the samples pick, in draw order. */
  method PickSymptoms(symptoms: seq<string>, draws: seq<Sample>) returns (chosen: seq<string>)
    requires Completes(symptoms, draws)
    ensures |chosen| == 3 && NoDuplicates(chosen)
    ensures forall x :: x in chosen ==> x in symptoms
    ensures chosen == FirstSeen(Picks(symptoms, draws))[..3]
  {
    ghost var all := Picks(symptoms, draws);
    assert all[..|all|] == all;
    chosen := [];
    var k := 0;
    while |chosen| < 3
      invariant 0 <= k <= |draws|
      invariant chosen == FirstSeen(all[..k])
      invariant |chosen| <= 3
      invariant k == |draws| ==> |chosen| >= 3
      decreases |draws| - k
    {
      var symptom := ChooseRandom(symptoms, draws[k]);
      FirstSeenStep(all, k);
      if symptom !in chosen {
        chosen := chosen + [symptom];
      }
      k := k + 1;
    }
    FirstSeenPrefix(all[..k], all[k..]);
    assert all[..k] + all[k..] == all;
  }

  /** Any disease with at least three different symptoms can complete the
      loop, repeats or not: one sample per position picks every symptom. */
  lemma SelectionCanFinish(symptoms: seq<string>)
    requires |ToSet(symptoms)| >= 3
    ensures Completes(symptoms, Sweep(|symptoms|))
  {
    FirstSeenLength(symptoms);
    var picks := Picks(symptoms, Sweep(|symptoms|));
    forall k | 0 <= k < |symptoms| ensures picks[k] == symptoms[k] {
      ChooseRandomCovers(symptoms, k);
    }
    assert picks == symptoms;
  }

  /** Whatever disease the first sample selects, some stream of samples
      completes the symptom loop. */
  lemma EveryDiseaseCanFinish(u: Sample)
    ensures var d := ChooseRandom(Diseases, u);
            Completes(d.symptoms, Sweep(|d.symptoms|))
  {
    var d := ChooseRandom(Diseases, u);
    CatalogWellFormed();
    DistinctCard(d.symptoms);
    SelectionCanFinish(d.symptoms);
  }

  /** And the converse: no stream of samples completes the loop on a
      disease with fewer than three different symptoms, which is why every
      record needs three. */
  lemma SelectionNeedsThreeDistinct(symptoms: seq<string>, draws: seq<Sample>)
    requires Completes(symptoms, draws)
    ensures |ToSet(symptoms)| >= 3
  {
    var picks := Picks(symptoms, draws);
    FirstSeenLength(picks);
    forall x | x in ToSet(picks) ensures x in ToSet(symptoms) {
      var k :| 0 <= k < |picks| && picks[k] == x;
      assert x == ChooseRandom(symptoms, draws[k]);
    }
    SubsetCard(ToSet(picks), ToSet(symptoms));
  }

  // ---------------------------------------------------------------------
  // Evaluating a treatment

  /** The `medication` field of the request body: absent, a string, some
      other JSON value carried with the text a template literal renders it
      as, or a value whose rendering throws (an object whose `toString` is
      not a function, such as `{"toString": 0}`). */
  datatype Medication = Absent | Str(value: string) | NonString(shown: string) | Throwing

  /** `${medication}` inside a template literal: a string as received,
      untrimmed and in its own case; a missing field as `undefined`. */
  function Shown(m: Medication): (r: string)
    requires !m.Throwing?
    ensures m.Str? ==> r == m.value
    ensures m.Absent? ==> r == "undefined"
  {
    match m
    case Absent => "undefined"
    case Str(v) => v
    case NonString(t) => t
  }

  /** The verdict: the choice must be a string, and it must equal the
      recommendation once both are lower-cased and the choice has lost its
      surrounding whitespace. Only the player's choice is trimmed. */
  function IsCorrect(recommended: string, m: Medication): (b: bool)
    ensures b ==> m.Str? && |Trim(m.value)| == |recommended|
    ensures m.Str? && Trim(m.value) == recommended ==> b
  {
    m.Str? && ToLower(recommended) == ToLower(Trim(m.value))
  }

  /** `"${s}"`: a value in double quotes, as the messages show it. */
  function Quoted(s: string): string {
    "\"" + s + "\""
  }

  const CorrectPrefix: string := "You chose the recommended treatment ("
  const CorrectClosing: string := "). The patient reports improvement!"
  const IncorrectOpening: string := "The recommended treatment was "
  const IncorrectClosing: string := " was not ideal."

  /** The message for a right choice: the opening, the recommendation in
      quotes, and the closing parenthesis with the rest of the sentence. */
  function CorrectMessage(recommended: string): (r: string)
    ensures |r| == |CorrectPrefix| + |recommended| + 2 + |CorrectClosing|
    ensures r[..|CorrectPrefix|] == CorrectPrefix
    ensures r[|CorrectPrefix|..|CorrectPrefix| + |recommended| + 2] == Quoted(recommended)
    ensures r[|CorrectPrefix| + |recommended| + 2..] == CorrectClosing
  {
    Parts(CorrectPrefix, Quoted(recommended), CorrectClosing);
    CorrectPrefix + Quoted(recommended) + CorrectClosing
  }

  /** The message for a wrong choice: the recommendation in quotes, then
      the choice in quotes as it was received. */
  function IncorrectMessage(recommended: string, m: Medication): (r: string)
    requires !m.Throwing?
    ensures |r| == |IncorrectOpening| + |recommended| + 2 + |". Your choice "| + |Shown(m)| + 2 + |IncorrectClosing|
    ensures r[..|IncorrectOpening|] == IncorrectOpening
    ensures r[|IncorrectOpening|..|IncorrectOpening| + |recommended| + 2] == Quoted(recommended)
    ensures r[|IncorrectOpening| + |recommended| + 2..] == ". Your choice " + Quoted(Shown(m)) + IncorrectClosing
  {
    var rest := ". Your choice " + Quoted(Shown(m)) + IncorrectClosing;
    Parts(IncorrectOpening, Quoted(recommended), rest);
    IncorrectOpening + Quoted(recommended) + rest
  }

  /** The message for a right choice names the recommended medication,
      followed directly by the closing parenthesis. */
  lemma CorrectMessageNames(recommended: string)
    ensures CorrectPrefix <= CorrectMessage(recommended)
    ensures Contains(CorrectMessage(recommended), Quoted(recommended))
    ensures Contains(CorrectMessage(recommended), Quoted(recommended) + "). The patient reports improvement!")
  {
    var msg := CorrectMessage(recommended);
    var i := |CorrectPrefix|;
    var tail := Quoted(recommended) + CorrectClosing;
    assert msg[i..] == tail;
    assert Quoted(recommended) <= msg[i..];
    assert CorrectClosing == "). The patient reports improvement!";
  }

  /** The message for a wrong choice names the recommended medication and
      the choice as received, and does not read as the right-choice one. */
  lemma IncorrectMessageNames(recommended: string, m: Medication)
    requires !m.Throwing?
    ensures !(CorrectPrefix <= IncorrectMessage(recommended, m))
    ensures Contains(IncorrectMessage(recommended, m), Quoted(recommended))
    ensures Contains(IncorrectMessage(recommended, m), Quoted(Shown(m)))
    ensures Contains(IncorrectMessage(recommended, m), ". Your choice " + Quoted(Shown(m)) + " was not ideal.")
    ensures EndsWith(IncorrectMessage(recommended, m), ". Your choice " + Quoted(Shown(m)) + " was not ideal.")
  {
    var mid := ". Your choice ";
    var rest := mid + Quoted(Shown(m)) + IncorrectClosing;
    var msg := IncorrectMessage(recommended, m);
    assert msg == IncorrectOpening + Quoted(recommended) + rest;
    ContainsPart(IncorrectOpening, Quoted(recommended), rest);
    ContainsPart(IncorrectOpening + Quoted(recommended), rest, []);
    assert msg == (IncorrectOpening + Quoted(recommended)) + rest + [];
    assert msg == (IncorrectOpening + Quoted(recommended) + mid) + Quoted(Shown(m)) + IncorrectClosing;
    ContainsPart(IncorrectOpening + Quoted(recommended) + mid, Quoted(Shown(m)), IncorrectClosing);
    assert msg[0] == 'T' && CorrectPrefix[0] == 'Y';
  }

  /** The reply of `POST /treat`: the status-400 error, the verdict, or the
      status-500 error Express sends when the handler throws. */
  datatype TreatReply =
    | Rejected(status: int, error: string)
    | Evaluated(correct: bool, message: string, recommended: string)
    | Failed(status: int)

  const InvalidPatient: TreatReply := Rejected(400, "Invalid patient ID")
  const ServerError: TreatReply := Failed(500)

  /** The verdict on a choice for a patient whose disease recommends
      `recommended`. A wrong choice whose rendering throws ends the handler
      with the status-500 error; a right choice is never rendered. */
  function Evaluate(recommended: string, m: Medication): (r: TreatReply)
    ensures r.Evaluated? || r == ServerError
    ensures r == ServerError <==> m.Throwing?
    ensures r.Evaluated? ==> r.recommended == recommended
    ensures r.Evaluated? ==> (r.correct <==> IsCorrect(recommended, m))
    ensures !m.Str? ==> !(r.Evaluated? && r.correct)
    ensures r.Evaluated? ==> (r.correct <==> CorrectPrefix <= r.message)
    ensures r.Evaluated? && r.correct ==> r.message == CorrectMessage(recommended)
    ensures r.Evaluated? ==> Contains(r.message, Quoted(recommended))
    ensures !m.Throwing? && !IsCorrect(recommended, m) ==>
              r.Evaluated? && r.message == IncorrectMessage(recommended, m)
              && Contains(r.message, Quoted(Shown(m)))
  {
    if IsCorrect(recommended, m) then
      CorrectMessageNames(recommended);
      Evaluated(true, CorrectMessage(recommended), recommended)
    else if m.Throwing? then
      ServerError
    else
      IncorrectMessageNames(recommended, m);
      Evaluated(false, IncorrectMessage(recommended, m), recommended)
  }

  /** Surrounding whitespace and ASCII case in the choice do not matter. */
  lemma CorrectUpToCaseAndPadding(recommended: string, pre: string, v: string, post: string)
    requires AllWhitespace(pre) && AllWhitespace(post) && IsTrimmed(v)
    requires |v| == |recommended|
    requires forall k :: 0 <= k < |v| ==> SameIgnoringCase(v[k], recommended[k])
    ensures IsCorrect(recommended, Str(pre + v + post))
  {
    TrimOfPadded(pre, v, post);
    ToLowerEqualIff(recommended, v);
  }

  /** A choice that matches after trimming and lower-casing is correct,
      in both directions. */
  lemma CorrectIff(recommended: string, v: string)
    ensures IsCorrect(recommended, Str(v)) <==>
            |Trim(v)| == |recommended| &&
            forall k :: 0 <= k < |recommended| ==> SameIgnoringCase(recommended[k], Trim(v)[k])
  {
    ToLowerEqualIff(recommended, Trim(v));
  }

  lemma QuotedContains(s: string)
    ensures Contains(Quoted(s), s)
  {
    ContainsPart("\"", s, "\"");
  }

  lemma AntidepressantLowerCased()
    ensures ToLower("Antidepressant") == "antidepressant"
    ensures ToLower("antidepressant") == "antidepressant"
    ensures ToLower("ANTIDEPRESSANT") == "antidepressant"
  {
  }

  /** Worked example: "Antidepressant" is matched by "antidepressant". */
  lemma LowerCaseMatches()
    ensures IsCorrect("Antidepressant", Str("antidepressant"))
  {
    TrimOfTrimmed("antidepressant");
    AntidepressantLowerCased();
  }

  /** Worked example: "Antidepressant" is matched by "ANTIDEPRESSANT"
      with two spaces before it and one after. */
  lemma PaddedUpperCaseMatches()
    ensures IsCorrect("Antidepressant", Str("  " + "ANTIDEPRESSANT" + " "))
  {
    TrimOfPadded("  ", "ANTIDEPRESSANT", " ");
    AntidepressantLowerCased();
  }

  /** Worked example: "Stimulant" for a patient needing "Antidepressant" is
      wrong, and the message names both. */
  lemma StimulantIsWrong()
    ensures var r := Evaluate("Antidepressant", Str("Stimulant"));
            !r.correct && r.recommended == "Antidepressant"
            && Contains(r.message, "Antidepressant") && Contains(r.message, "Stimulant")
  {
    var r := Evaluate("Antidepressant", Str("Stimulant"));
    assert !r.correct by {
      TrimOfTrimmed("Stimulant");
      assert |ToLower("Antidepressant")| != |ToLower("Stimulant")|;
    }
    QuotedContains("Antidepressant");
    QuotedContains("Stimulant");
    assert Shown(Str("Stimulant")) == "Stimulant";
    ContainsWithin(r.message, Quoted("Antidepressant"), "Antidepressant");
    ContainsWithin(r.message, Quoted("Stimulant"), "Stimulant");
  }

  /** Worked example: the whole reply to a right choice for "Antidepressant"
      (the text is written in pieces only to keep the proof small). */
  lemma RightChoiceText()
    ensures Evaluate("Antidepressant", Str("antidepressant")) ==
            Evaluated(true, "You chose the recommended treatment (" + "\"Antidepressant\""
                            + "). The patient reports improvement!", "Antidepressant")
  {
    LowerCaseMatches();
    assert Evaluate("Antidepressant", Str("antidepressant")) ==
           Evaluated(true, CorrectMessage("Antidepressant"), "Antidepressant");
    RightChoiceMessage();
  }

  lemma RightChoiceMessage()
    ensures CorrectMessage("Antidepressant") ==
            "You chose the recommended treatment (" + "\"Antidepressant\"" + "). The patient reports improvement!"
  {
    assert Quoted("Antidepressant") == "\"Antidepressant\"";
  }

  /** Worked example: the whole reply to the wrong choice "Stimulant" for
      "Antidepressant". */
  lemma WrongChoiceText()
    ensures Evaluate("Antidepressant", Str("Stimulant")) ==
            Evaluated(false, "The recommended treatment was " + "\"Antidepressant\"" + ". Your choice "
                             + "\"Stimulant\"" + " was not ideal.", "Antidepressant")
  {
    var m := Str("Stimulant");
    assert !IsCorrect("Antidepressant", m) by {
      TrimOfTrimmed("Stimulant");
    }
    assert Evaluate("Antidepressant", m) == Evaluated(false, IncorrectMessage("Antidepressant", m), "Antidepressant");
    WrongChoiceMessage();
  }

  lemma WrongChoiceMessage()
    ensures IncorrectMessage("Antidepressant", Str("Stimulant")) ==
            "The recommended treatment was " + "\"Antidepressant\"" + ". Your choice "
            + "\"Stimulant\"" + " was not ideal."
  {
    assert Quoted("Antidepressant") == "\"Antidepressant\"";
    assert Quoted(Shown(Str("Stimulant"))) == "\"Stimulant\"";
  }

  /** The recommended medication is not trimmed: a catalog entry with a
      leading space would not match itself. */
  lemma OnlyChoiceIsTrimmed()
    ensures !IsCorrect(" Stimulant", Str(" Stimulant"))
  {
    TrimOfPadded(" ", "Stimulant", []);
    assert " " + "Stimulant" + [] == " Stimulant";
    assert |ToLower(" Stimulant")| != |ToLower("Stimulant")|;
  }

  // ---------------------------------------------------------------------
  // The store as a value

  /** 2^53, `Number.MAX_SAFE_INTEGER + 1`: the first integer at which a
      JavaScript number stops counting by one. `2^53 + 1` is not a double
      and rounds to the even neighbour, 2^53, so `nextId++` leaves the
      counter there. */
  const MaxId: nat := 9007199254740992

  /** `nextId++` on a JavaScript number that starts at 1: one more, until
      the counter reaches 2^53, where it stays. */
  function Bump(n: nat): (r: nat)
    requires n <= MaxId
    ensures r <= MaxId && n <= r
    ensures n < MaxId ==> r == n + 1
    ensures n == MaxId ==> r == n
  {
    if n < MaxId then n + 1 else n
  }

  /** `n` capped at 2^53. */
  function Capped(n: int): int {
    if n < MaxId then n else MaxId
  }

  lemma CappedShift(a: nat, n: nat)
    requires a <= MaxId
    ensures Capped(Bump(a) + n) == Capped(a + 1 + n)
  {
  }

  /** `nextId` and `patients` together. */
  datatype StoreState = StoreState(nextId: nat, patients: map<nat, Disease>)

  /** Every stored id was issued before: it lies in [1, nextId), except
      that once the counter is stuck at 2^53 the id 2^53 itself is stored. */
  predicate Consistent(s: StoreState) {
    1 <= s.nextId <= MaxId
    && forall id :: id in s.patients ==> 1 <= id < s.nextId || id == s.nextId == MaxId
  }

  /** The store when the process starts. */
  const Initial: StoreState := StoreState(1, map[])

  /** Storing a new patient with disease `d`: the store after, and the id. */
  function Admit(s: StoreState, d: Disease): (r: (StoreState, nat))
    requires Consistent(s)
    ensures Consistent(r.0)
    ensures r.1 >= 1 && r.1 == s.nextId
    ensures r.1 < MaxId ==> r.1 !in s.patients && r.0.nextId == r.1 + 1
    ensures r.1 == MaxId ==> r.0.nextId == MaxId
    ensures r.0.patients.Keys == s.patients.Keys + {r.1}
    ensures r.0.patients[r.1] == d
    ensures forall id :: id in s.patients && id != r.1 ==> r.0.patients[id] == s.patients[id]
  {
    (StoreState(Bump(s.nextId), s.patients[s.nextId := d]), s.nextId)
  }

  /** Treating patient `id` with `m`: the store after, and the reply. */
  function Discharge(s: StoreState, id: int, m: Medication): (r: (StoreState, TreatReply))
    ensures id !in s.patients ==> r == (s, InvalidPatient)
    ensures id in s.patients ==>
              && r.0.nextId == s.nextId
              && r.0.patients.Keys == s.patients.Keys - {id}
              && (forall k :: k in r.0.patients ==> r.0.patients[k] == s.patients[k])
              && r.1 == Evaluate(s.patients[id].medication, m)
  {
    if id in s.patients then
      (StoreState(s.nextId, s.patients - {id}), Evaluate(s.patients[id].medication, m))
    else
      (s, InvalidPatient)
  }

  lemma DischargeKeepsConsistent(s: StoreState, id: int, m: Medication)
    requires Consistent(s)
    ensures Consistent(Discharge(s, id, m).0)
  {
  }

  /** One request to the server, with the disease the random draw selects
      for a `GET /patient`. */
  datatype Request =
    | GetPatient(disease: Disease)
    | PostTreat(id: int, medication: Medication)

  /** The number of `GET /patient` requests in `reqs`. */
  function Gets(reqs: seq<Request>): (n: nat)
    ensures n <= |reqs|
  {
    if reqs == [] then 0 else (if reqs[0].GetPatient? then 1 else 0) + Gets(reqs[1..])
  }

  /** The store after serving `reqs` in order, and the ids issued: one per
      `GET /patient`, none per `POST /treat`. */
  function Run(s: StoreState, reqs: seq<Request>): (r: (StoreState, seq<nat>))
    requires Consistent(s)
    ensures Consistent(r.0)
    ensures |r.1| == Gets(reqs)
    ensures s.nextId <= r.0.nextId
    decreases |reqs|
  {
    if reqs == [] then (s, [])
    else
      match reqs[0]
      case GetPatient(d) =>
        var (t, id) := Admit(s, d);
        var (u, ids) := Run(t, reqs[1..]);
        (u, [id] + ids)
      case PostTreat(id, m) =>
        DischargeKeepsConsistent(s, id, m);
        Run(Discharge(s, id, m).0, reqs[1..])
  }

  /** Ids are issued one after the other from `nextId`, whatever treatments
      come in between, until the counter reaches 2^53; from there on every
      id is 2^53. `nextId` is always the next one to issue. */
  lemma {:induction false} RunIssuesConsecutiveIds(s: StoreState, reqs: seq<Request>)
    requires Consistent(s)
    ensures Run(s, reqs).0.nextId == Capped(s.nextId + Gets(reqs))
    ensures forall k :: 0 <= k < |Run(s, reqs).1| ==> Run(s, reqs).1[k] == Capped(s.nextId + k)
    decreases |reqs|
  {
    if reqs != [] {
      match reqs[0]
      case GetPatient(d) =>
        var t := Admit(s, d).0;
        RunIssuesConsecutiveIds(t, reqs[1..]);
        var ids' := Run(t, reqs[1..]).1;
        assert Run(s, reqs) == (Run(t, reqs[1..]).0, [s.nextId] + ids');
        CappedShift(s.nextId, |ids'|);
        forall k | 1 <= k <= |ids'| ensures ([s.nextId] + ids')[k] == Capped(s.nextId + k) {
          CappedShift(s.nextId, k - 1);
        }
      case PostTreat(id, m) =>
        DischargeKeepsConsistent(s, id, m);
        assert Run(s, reqs) == Run(Discharge(s, id, m).0, reqs[1..]);
        RunIssuesConsecutiveIds(Discharge(s, id, m).0, reqs[1..]);
    }
  }

  /** From a fresh process the ids are 1, 2, 3, ..., one per `GET /patient`:
      strictly increasing, and so never repeated, below 2^53. */
  lemma IdsFromStart(reqs: seq<Request>)
    ensures |Run(Initial, reqs).1| == Gets(reqs)
    ensures forall k :: 0 <= k < |Run(Initial, reqs).1| ==> Run(Initial, reqs).1[k] == Capped(k + 1)
    ensures forall i, j :: 0 <= i < j < |Run(Initial, reqs).1| && Run(Initial, reqs).1[j] < MaxId ==>
              Run(Initial, reqs).1[i] < Run(Initial, reqs).1[j]
  {
    RunIssuesConsecutiveIds(Initial, reqs);
  }

  /** At the limit the id repeats: two patients in a row both get 2^53,
      and the second replaces the first in the map. */
  lemma IdsRepeatAtLimit(s: StoreState, d: Disease, d': Disease)
    requires Consistent(s) && s.nextId == MaxId
    ensures var (t, first) := Admit(s, d);
            var (u, second) := Admit(t, d');
            first == second == MaxId && u.nextId == MaxId && u.patients[MaxId] == d'
  {
  }

  /** An id that was issued and is no longer stored is never stored again. */
  lemma {:induction false} GoneStaysGone(s: StoreState, id: nat, reqs: seq<Request>)
    requires Consistent(s) && id < s.nextId && id !in s.patients
    ensures id !in Run(s, reqs).0.patients
    decreases |reqs|
  {
    if reqs != [] {
      match reqs[0]
      case GetPatient(d) =>
        GoneStaysGone(Admit(s, d).0, id, reqs[1..]);
      case PostTreat(i, m) =>
        DischargeKeepsConsistent(s, i, m);
        GoneStaysGone(Discharge(s, i, m).0, id, reqs[1..]);
    }
  }

  /** Each patient is treated once: the first treatment of a stored id,
      correct or not, is answered and removes it; any later treatment of an
      id below 2^53 is rejected, whatever requests come in between. (The
      id 2^53 is issued again, see IdsRepeatAtLimit.) */
  lemma TreatedOnce(s: StoreState, id: int, m: Medication, between: seq<Request>, m': Medication)
    requires Consistent(s) && id in s.patients
    ensures Discharge(s, id, m).1 != InvalidPatient
    ensures id !in Discharge(s, id, m).0.patients
    ensures var t := Run(Discharge(s, id, m).0, between).0;
            id < MaxId ==> Discharge(t, id, m') == (t, InvalidPatient)
  {
    DischargeKeepsConsistent(s, id, m);
    if id < MaxId {
      GoneStaysGone(Discharge(s, id, m).0, id, between);
    }
  }

  // ---------------------------------------------------------------------
  // The store as the source keeps it

  /** What `generatePatient` returns. */
  datatype Patient = Patient(id: nat, name: string, symptoms: seq<string>, medicationOptions: seq<string>)

  class SessionStore {
    var nextId: nat
    var patients: map<nat, Disease>

    function State(): StoreState
      reads this
    {
      StoreState(nextId, patients)
    }

    /** A fresh process: the counter starts at 1 and no patient is stored. */
    constructor ()
      ensures State() == Initial
    {
      nextId := 1;
      patients := map[];
    }

    /** `generatePatient()`, with the samples of `Math.random()` it consumes
        for the disease, for the symptom loop and for the name. */
    method GeneratePatient(diseaseDraw: Sample, symptomDraws: seq<Sample>, nameDraw: Sample)
      returns (p: Patient)
      requires Consistent(State())
      requires Completes(ChooseRandom(Diseases, diseaseDraw).symptoms, symptomDraws)
      modifies this
      ensures Consistent(State())
      ensures var d := ChooseRandom(Diseases, diseaseDraw);
              && (State(), p.id) == Admit(old(State()), d)
              && p.id == old(nextId)
              && (p.id < MaxId ==> p.id !in old(patients) && nextId == old(nextId) + 1)
              && (p.id == MaxId ==> nextId == MaxId)
              && patients == old(patients)[p.id := d]
              && |p.symptoms| == 3 && NoDuplicates(p.symptoms)
              && (forall x :: x in p.symptoms ==> x in d.symptoms)
              && p.symptoms == FirstSeen(Picks(d.symptoms, symptomDraws))[..3]
      ensures p.name == ChooseRandom(PatientNames, nameDraw)
      ensures p.medicationOptions == MedicationOptions
    {
      var disease := ChooseRandom(Diseases, diseaseDraw);
      var chosenSymptoms := PickSymptoms(disease.symptoms, symptomDraws);
      var id := nextId;
      nextId := Bump(nextId);
      var name := ChooseRandom(PatientNames, nameDraw);
      patients := patients[id := disease];
      p := Patient(id, name, chosenSymptoms, MedicationOptions);
    }

    /** The body of the `POST /treat` handler. The patient is removed
        whether or not the choice was right, and before the message is
        rendered, so even a rendering that throws consumes it. */
    method Treat(id: int, medication: Medication) returns (r: TreatReply)
      requires Consistent(State())
      modifies this
      ensures Consistent(State())
      ensures (State(), r) == Discharge(old(State()), id, medication)
      ensures id !in old(patients) ==> r == InvalidPatient && unchanged(this)
      ensures id in old(patients) ==>
                && r == Evaluate(old(patients)[id].medication, medication)
                && patients == old(patients) - {id}
                && nextId == old(nextId)
    {
      if id !in patients {
        return InvalidPatient;
      }
      var recommended := patients[id].medication;
      var isCorrect := medication.Str? && ToLower(recommended) == ToLower(Trim(medication.value));
      patients := patients - {id};
      if isCorrect {
        r := Evaluated(true, CorrectMessage(recommended), recommended);
      } else if medication.Throwing? {
        r := ServerError;
      } else {
        r := Evaluated(false, IncorrectMessage(recommended, medication), recommended);
      }
    }
  }
}
