/** The fixed domain data of backend/index.js: the disorder records, the
    derived list of medication options and the patient names, together with
    `FirstSeen`, the de-duplication `Array.from(new Set(...))` performs. */
module Catalog {

  /** One disorder record: its name, its symptoms and the one medication
      the game accepts as the right treatment. */
  datatype Disease = Disease(name: string, symptoms: seq<string>, medication: string)

  predicate NoDuplicates<T(==)>(s: seq<T>) {
    forall i, j :: 0 <= i < j < |s| ==> s[i] != s[j]
  }

  function ToSet<T(!new)>(s: seq<T>): (r: set<T>)
    ensures forall x :: x in r <==> x in s
  {
    set x | x in s
  }

  /** A record the symptom-drawing loop can always finish with: at least
      three symptoms, none listed twice. */
  predicate WellFormed(d: Disease) {
    |d.symptoms| >= 3 && NoDuplicates(d.symptoms)
  }

  const Diseases: seq<Disease> := [
    Disease("Bipolar Disorder",
      ["mood swings", "periods of high energy", "feelings of sadness", "irritability", "difficulty sleeping"],
      "Mood Stabilizer"),
    Disease("Depression",
      ["persistent sadness", "loss of interest", "fatigue", "feelings of guilt", "changes in appetite"],
      "Antidepressant"),
    Disease("Anxiety Disorder",
      ["excessive worry", "restlessness", "muscle tension", "irritability", "difficulty concentrating"],
      "Anxiolytic"),
    Disease("Schizophrenia",
      ["hallucinations", "delusions", "disorganized thinking", "social withdrawal", "flat affect"],
      "Antipsychotic"),
    // The hyphens in the next three names (and in "Trauma-Focused") are
    // U+2011 NON-BREAKING HYPHEN, as in the source.
    Disease("Attention\U{2011}Deficit/Hyperactivity Disorder",
      ["difficulty paying attention", "hyperactivity", "impulsivity", "forgetfulness", "fidgeting"],
      "Stimulant"),
    Disease("Obsessive\U{2011}Compulsive Disorder",
      ["obsessive thoughts", "compulsive behaviors", "need for symmetry", "fear of contamination", "repetitive rituals"],
      "Serotonin Reuptake Inhibitor"),
    Disease("Post\U{2011}Traumatic Stress Disorder",
      ["flashbacks", "nightmares", "avoidance", "hypervigilance", "emotional numbness"],
      "Trauma\U{2011}Focused Therapy")
  ]

  /** The generic names patients are labelled with. */
  const PatientNames: seq<string> :=
    ["Alex", "Taylor", "Jordan", "Casey", "Morgan", "Riley", "Jamie", "Sydney", "Bailey", "Cameron"]

  /** Every record can feed the symptom-drawing loop, and no two records
      share a name. */
  lemma CatalogWellFormed()
    ensures |Diseases| == 7
    ensures forall d :: d in Diseases ==> WellFormed(d)
    ensures NoDuplicates(seq(|Diseases|, i requires 0 <= i < |Diseases| => Diseases[i].name))
  {
  }

  /** The position of the first occurrence of `x` in `s`. */
  function FirstIndex<T(==)>(s: seq<T>, x: T): (i: nat)
    requires x in s
    ensures i < |s| && s[i] == x
    ensures forall k :: 0 <= k < i ==> s[k] != x
  {
    if s[0] == x then 0 else 1 + FirstIndex(s[1..], x)
  }

  /** The distinct elements of `s` in first-seen order: what
      `Array.from(new Set(s))` returns, since a JavaScript `Set` iterates in
      insertion order and ignores repeated insertions. */
  function FirstSeen<T(==,!new)>(s: seq<T>): (r: seq<T>)
    ensures NoDuplicates(r)
    ensures forall x :: x in r <==> x in s
    ensures |r| <= |s|
    decreases |s|
  {
    if s == [] then []
    else
      var r := FirstSeen(s[..|s| - 1]);
      if s[|s| - 1] in r then r else r + [s[|s| - 1]]
  }

  /** One more element of the input: `FirstSeen` keeps it if it is new. */
  lemma FirstSeenStep<T(!new)>(s: seq<T>, k: nat)
    requires k < |s|
    ensures FirstSeen(s[..k + 1]) ==
            if s[k] in FirstSeen(s[..k]) then FirstSeen(s[..k]) else FirstSeen(s[..k]) + [s[k]]
  {
    assert s[..k + 1][..k] == s[..k];
  }

  /** Adding elements at the end of the input never changes what was
      already collected: first-seen order. */
  lemma {:induction false} FirstSeenPrefix<T(!new)>(a: seq<T>, b: seq<T>)
    ensures FirstSeen(a) <= FirstSeen(a + b)
    decreases |b|
  {
    if b == [] {
      assert a + b == a;
    } else {
      var b' := b[..|b| - 1];
      assert (a + b)[..|a + b| - 1] == a + b';
      FirstSeenPrefix(a, b');
    }
  }

  lemma FirstIndexOfPrefix<T>(p: seq<T>, x: T, y: T)
    requires y in p
    ensures FirstIndex(p + [x], y) == FirstIndex(p, y)
  {
    var i := FirstIndex(p, y);
    var j := FirstIndex(p + [x], y);
    assert (p + [x])[i] == y;
    assert j <= i;
    assert p[j] == (p + [x])[j];
  }

  /** The output lists elements in the order of their first occurrence in
      the input. */
  lemma {:induction false} FirstSeenOrder<T(!new)>(s: seq<T>)
    ensures forall i, j :: 0 <= i < j < |FirstSeen(s)| ==>
              FirstIndex(s, FirstSeen(s)[i]) < FirstIndex(s, FirstSeen(s)[j])
    decreases |s|
  {
    if s != [] {
      var p, x := s[..|s| - 1], s[|s| - 1];
      assert s == p + [x];
      var r := FirstSeen(p);
      FirstSeenOrder(p);
      forall y | y in r ensures FirstIndex(s, y) == FirstIndex(p, y) {
        FirstIndexOfPrefix(p, x, y);
      }
      if x !in r {
        assert FirstIndex(s, x) == |p|;
        assert FirstSeen(s) == r + [x];
      }
    }
  }

  /** An ordering by first occurrence puts the element that occurs only at
      the very end of `p + [x]` last. */
  lemma NewestIsLast<T>(p: seq<T>, x: T, t: seq<T>)
    requires x !in p
    requires forall y :: y in t <==> y in p + [x]
    requires forall i, j :: 0 <= i < j < |t| ==> FirstIndex(p + [x], t[i]) < FirstIndex(p + [x], t[j])
    ensures t != [] && t[|t| - 1] == x
  {
    var s := p + [x];
    assert x in t;
    var q :| 0 <= q < |t| && t[q] == x;
    assert FirstIndex(s, x) == |p|;
    var m := |t| - 1;
    assert FirstIndex(s, t[m]) <= |p|;
  }

  /** No duplicates, the same elements and first-seen order determine the
      result uniquely: `FirstSeen` is the only function with the three
      properties above. */
  lemma {:induction false} FirstSeenUnique<T(!new)>(s: seq<T>, t: seq<T>)
    requires NoDuplicates(t)
    requires forall x :: x in t <==> x in s
    requires forall i, j :: 0 <= i < j < |t| ==> FirstIndex(s, t[i]) < FirstIndex(s, t[j])
    ensures t == FirstSeen(s)
    decreases |s|
  {
    if s == [] {
      DistinctCard(t);
      assert ToSet(t) == {};
    } else {
      var p, x := s[..|s| - 1], s[|s| - 1];
      assert s == p + [x];
      forall y | y in p ensures FirstIndex(s, y) == FirstIndex(p, y) {
        FirstIndexOfPrefix(p, x, y);
      }
      if x in p {
        assert forall y :: y in t <==> y in p;
        FirstSeenUnique(p, t);
      } else {
        NewestIsLast(p, x, t);
        var t' := t[..|t| - 1];
        assert t == t' + [x];
        forall i | 0 <= i < |t'| ensures t'[i] != x {
          assert t'[i] == t[i];
        }
        forall y | y in p ensures y in t' {
          assert y in t && y != x;
        }
        FirstSeenUnique(p, t');
      }
    }
  }

  /** A list without repeats comes back unchanged. */
  lemma {:induction false} FirstSeenOfDistinct<T(!new)>(s: seq<T>)
    requires NoDuplicates(s)
    ensures FirstSeen(s) == s
    decreases |s|
  {
    if s != [] {
      var p := s[..|s| - 1];
      FirstSeenOfDistinct(p);
      assert s[|s| - 1] !in p;
    }
  }

  /** A list without repeats has exactly as many elements as the set of them. */
  lemma {:induction false} DistinctCard<T(!new)>(s: seq<T>)
    requires NoDuplicates(s)
    ensures |ToSet(s)| == |s|
    decreases |s|
  {
    if s != [] {
      var p := s[..|s| - 1];
      DistinctCard(p);
      assert ToSet(s) == ToSet(p) + {s[|s| - 1]};
    }
  }

  lemma SubsetCard<T>(a: set<T>, b: set<T>)
    requires a <= b
    ensures |a| <= |b|
  {
    assert b == a + (b - a);
  }

  /** `FirstSeen` keeps one element per distinct value of its input. */
  lemma FirstSeenLength<T(!new)>(s: seq<T>)
    ensures |FirstSeen(s)| == |ToSet(s)|
  {
    DistinctCard(FirstSeen(s));
    assert ToSet(FirstSeen(s)) == ToSet(s);
  }

  /** The medication of every record, in catalog order
      (`diseases.map(d => d.medication)`). */
  function Medications(ds: seq<Disease>): (r: seq<string>)
    ensures |r| == |ds|
    ensures forall i :: 0 <= i < |ds| ==> r[i] == ds[i].medication
  {
    seq(|ds|, i requires 0 <= i < |ds| => ds[i].medication)
  }

  /** The options offered to the player. */
  const MedicationOptions: seq<string> := FirstSeen(Medications(Diseases))

  /** The options list has no repeats, offers every record's medication and
      nothing else, and is no longer than the catalog. */
  lemma MedicationOptionsSound()
    ensures NoDuplicates(MedicationOptions)
    ensures forall d :: d in Diseases ==> d.medication in MedicationOptions
    ensures forall m :: m in MedicationOptions ==> exists d :: d in Diseases && d.medication == m
    ensures |MedicationOptions| <= |Diseases|
  {
    var ms := Medications(Diseases);
    forall d | d in Diseases ensures d.medication in MedicationOptions {
      var i :| 0 <= i < |Diseases| && Diseases[i] == d;
      assert ms[i] == d.medication;
    }
    forall m | m in MedicationOptions ensures exists d :: d in Diseases && d.medication == m {
      var i :| 0 <= i < |ms| && ms[i] == m;
      assert Diseases[i] in Diseases;
    }
  }

  /** Each of the seven records has its own medication, so the options are
      the seven medications in catalog order. */
  lemma MedicationOptionsValue()
    ensures MedicationOptions == ["Mood Stabilizer", "Antidepressant", "Anxiolytic", "Antipsychotic",
                                  "Stimulant", "Serotonin Reuptake Inhibitor", "Trauma\U{2011}Focused Therapy"]
  {
    var ms := Medications(Diseases);
    assert ms == ["Mood Stabilizer", "Antidepressant", "Anxiolytic", "Antipsychotic",
                  "Stimulant", "Serotonin Reuptake Inhibitor", "Trauma\U{2011}Focused Therapy"];
    FirstSeenOfDistinct(ms);
  }
}
