/**
 * The marks API: POST stores one student's marks for a class, with every
 * `null` mark dropped, in a collection holding at most one record per
 * (class, student) pair; GET reads one record or all records of a class.
 *
 * The collection is an in-memory sequence of records and the classes that
 * exist are a set of ids; the clock is the `now` parameter.
 */
module MarksApi {
  import opened Wrappers

  /** A JSON number. Marks are only copied, never computed with. */
  type Number = real

  /** Marks per indicator, a `null` mark being `None`. */
  type Indicators = map<string, Option<Number>>

  /** The `marks` object of a request. A member that is `null` or absent is
      `None`; so is an experiment whose indicator object is `null`. */
  datatype MarksInput = MarksInput(
    experiments: Option<map<string, Option<Indicators>>>,
    experimentTotals: Option<Indicators>,
    totalMarks: Option<Number>)

  /** A request body; an absent or empty `classId` or `studentId` is "". */
  datatype MarkUpdate = MarkUpdate(classId: string, studentId: string, marks: Option<MarksInput>)

  /** `transformedData`: the marks with every `null` dropped. */
  datatype Transformed = Transformed(
    experiments: map<string, map<string, Number>>,
    experimentTotals: map<string, Number>,
    totalMarks: Option<Number>)

  /** A stored marks record. */
  datatype MarksDoc = MarksDoc(
    classId: string,
    studentId: string,
    experiments: map<string, map<string, Number>>,
    experimentTotals: map<string, Number>,
    totalMarks: Option<Number>,
    updatedAt: int)

  // ---------------------------------------------------------------------------
  // Dropping nulls

  /** The non-null entries of a map of marks, unchanged. */
  function DropNulls(m: Indicators): map<string, Number> {
    map k | k in m && m[k].Some? :: m[k].value
  }

  /** The entries kept are exactly the non-null ones, with their values. */
  lemma DropNullsSpec(m: Indicators)
    ensures forall k :: k in DropNulls(m) <==> k in m && m[k].Some?
    ensures forall k :: k in DropNulls(m) ==> m[k] == Some(DropNulls(m)[k])
  {
  }

  /** Every experiment's indicator object is present. */
  predicate AllIndicatorsPresent(exps: map<string, Option<Indicators>>) {
    forall e :: e in exps ==> exps[e].Some?
  }

  /** What the two transform loops produce from the request's marks, or `None`
      when one of them throws: `Object.entries` of an `experiments`, an
      `experimentTotals` or an indicator object that is `null` or absent. */
  function Normalized(marks: MarksInput): Option<Transformed> {
    if marks.experiments.None? || marks.experimentTotals.None? then None
    else if !AllIndicatorsPresent(marks.experiments.value) then None
    else
      var exps := marks.experiments.value;
      Some(Transformed(
        map e | e in exps :: DropNulls(exps[e].value),
        DropNulls(marks.experimentTotals.value),
        marks.totalMarks))
  }

  /** The transform succeeds exactly when all three objects are there; it then
      keeps every experiment key, even one whose marks are all null, keeps
      exactly the non-null marks with unchanged values, and copies
      `totalMarks` as it is, `null` included. */
  lemma NormalizedSpec(marks: MarksInput)
    ensures Normalized(marks).Some? <==>
      marks.experiments.Some? && marks.experimentTotals.Some? && AllIndicatorsPresent(marks.experiments.value)
    ensures Normalized(marks).Some? ==>
      var t := Normalized(marks).value;
      var exps := marks.experiments.value;
      && t.experiments.Keys == exps.Keys
      && (forall e, i :: e in exps ==>
            (i in t.experiments[e] <==> i in exps[e].value && exps[e].value[i].Some?))
      && (forall e, i :: e in exps && i in t.experiments[e] ==> exps[e].value[i] == Some(t.experiments[e][i]))
      && (forall e :: e in exps && (forall i :: i in exps[e].value ==> exps[e].value[i].None?) ==>
            t.experiments[e] == map[])
      && (forall k :: k in t.experimentTotals <==> k in marks.experimentTotals.value && marks.experimentTotals.value[k].Some?)
      && (forall k :: k in t.experimentTotals ==> marks.experimentTotals.value[k] == Some(t.experimentTotals[k]))
      && t.totalMarks == marks.totalMarks
  {
    if Normalized(marks).Some? {
      var t := Normalized(marks).value;
      var exps := marks.experiments.value;
      forall e | e in exps && (forall i :: i in exps[e].value ==> exps[e].value[i].None?)
        ensures t.experiments[e] == map[]
      {
        assert t.experiments[e].Keys == {};
      }
    }
  }

  /** A map of marks with nothing null, as a request would send it. */
  function LiftMarks(m: map<string, Number>): Indicators {
    map k | k in m :: Some(m[k])
  }

  /** A transformed record sent back as a request. */
  function Lift(t: Transformed): MarksInput {
    MarksInput(
      Some(map e | e in t.experiments :: Some(LiftMarks(t.experiments[e]))),
      Some(LiftMarks(t.experimentTotals)),
      t.totalMarks)
  }

  lemma DropLiftMarks(m: map<string, Number>)
    ensures DropNulls(LiftMarks(m)) == m
  {
    assert DropNulls(LiftMarks(m)).Keys == m.Keys;
  }

  /** A record without nulls passes through the transform unchanged. */
  lemma NormalizeLift(t: Transformed)
    ensures Normalized(Lift(t)) == Some(t)
  {
    var input := Lift(t);
    var exps := input.experiments.value;
    DropLiftMarks(t.experimentTotals);
    forall e | e in t.experiments ensures DropNulls(exps[e].value) == t.experiments[e] {
      DropLiftMarks(t.experiments[e]);
    }
    assert (map e | e in exps :: DropNulls(exps[e].value)) == t.experiments;
  }

  /** The transform is idempotent: applied to its own output it gives that output. */
  lemma NormalizedIdempotent(marks: MarksInput)
    requires Normalized(marks).Some?
    ensures Normalized(Lift(Normalized(marks).value)) == Normalized(marks)
  {
    NormalizeLift(Normalized(marks).value);
  }

  /** The inner loop: copy the non-null marks of one indicator object. */
  method FilterNulls(m: Indicators) returns (out: map<string, Number>)
    ensures out == DropNulls(m)
  {
    out := map[];
    var todo := m.Keys;
    while todo != {}
      invariant todo <= m.Keys
      invariant forall k :: k in out <==> k in m && k !in todo && m[k].Some?
      invariant forall k :: k in out ==> m[k] == Some(out[k])
      decreases |todo|
    {
      var k :| k in todo;
      if m[k].Some? {
        out := out[k := m[k].value];
      }
      todo := todo - {k};
    }
  }

  /** The two transform loops; `None` where `Object.entries` throws. */
  method TransformMarks(marks: MarksInput) returns (r: Option<Transformed>)
    ensures r == Normalized(marks)
  {
    if marks.experiments.None? {
      return None;
    }
    var exps := marks.experiments.value;
    var experiments: map<string, map<string, Number>> := map[];
    var todo := exps.Keys;
    while todo != {}
      invariant todo <= exps.Keys
      invariant experiments.Keys == exps.Keys - todo
      invariant forall e :: e in experiments ==> exps[e].Some? && experiments[e] == DropNulls(exps[e].value)
      decreases |todo|
    {
      var e :| e in todo;
      if exps[e].None? {
        return None;
      }
      var indicators := FilterNulls(exps[e].value);
      experiments := experiments[e := indicators];
      todo := todo - {e};
    }
    if marks.experimentTotals.None? {
      return None;
    }
    var totals := FilterNulls(marks.experimentTotals.value);
    assert experiments == map e | e in exps :: DropNulls(exps[e].value);
    r := Some(Transformed(experiments, totals, marks.totalMarks));
  }

  // ---------------------------------------------------------------------------
  // The marks collection

  /** The compound unique index on (classId, studentId). */
  ghost predicate UniquePairs(docs: seq<MarksDoc>) {
    forall i, j :: 0 <= i < j < |docs| ==>
      docs[i].classId != docs[j].classId || docs[i].studentId != docs[j].studentId
  }

  predicate IsPair(d: MarksDoc, classId: string, studentId: string) {
    d.classId == classId && d.studentId == studentId
  }

  /** `findOne({ classId, studentId })`: the first record of the pair. */
  function FindPair(docs: seq<MarksDoc>, classId: string, studentId: string): (r: Option<nat>)
    ensures r.Some? ==> r.value < |docs| && IsPair(docs[r.value], classId, studentId)
    ensures r.Some? ==> forall j :: 0 <= j < r.value ==> !IsPair(docs[j], classId, studentId)
    ensures r.None? <==> forall j :: 0 <= j < |docs| ==> !IsPair(docs[j], classId, studentId)
  {
    if docs == [] then None
    else if IsPair(docs[0], classId, studentId) then Some(0)
    else
      match FindPair(docs[1..], classId, studentId)
      case None =>
        assert forall j :: 1 <= j < |docs| ==> docs[j] == docs[1..][j - 1];
        None
      case Some(i) =>
        assert forall j :: 1 <= j <= i ==> docs[j] == docs[1..][j - 1];
        Some(i + 1)
  }

  /** The record found for a pair is the first one of the pair. */
  lemma FindPairIs(docs: seq<MarksDoc>, classId: string, studentId: string, k: nat)
    requires k < |docs| && IsPair(docs[k], classId, studentId)
    requires forall j :: 0 <= j < k ==> !IsPair(docs[j], classId, studentId)
    ensures FindPair(docs, classId, studentId) == Some(k)
  {
  }

  /** `findOneAndUpdate` with `upsert`: the record of the pair gets the new
      marks and time; without one, a new record is added. */
  function Upserted(docs: seq<MarksDoc>, classId: string, studentId: string, t: Transformed, now: int)
    : seq<MarksDoc>
  {
    match FindPair(docs, classId, studentId)
    case Some(i) =>
      docs[i := docs[i].(experiments := t.experiments, experimentTotals := t.experimentTotals,
                         totalMarks := t.totalMarks, updatedAt := now)]
    case None => docs + [MarksDoc(classId, studentId, t.experiments, t.experimentTotals, t.totalMarks, now)]
  }

  /** The record an upsert leaves for the pair. */
  function Stored(classId: string, studentId: string, t: Transformed, now: int): MarksDoc {
    MarksDoc(classId, studentId, t.experiments, t.experimentTotals, t.totalMarks, now)
  }

  /** An upsert keeps the index unique, adds a record only for a new pair,
      leaves every other record alone, and puts the new marks in the pair's record. */
  lemma UpsertSpec(docs: seq<MarksDoc>, classId: string, studentId: string, t: Transformed, now: int)
    requires UniquePairs(docs)
    ensures var r := Upserted(docs, classId, studentId, t, now);
      && UniquePairs(r)
      && (FindPair(docs, classId, studentId).Some? ==> |r| == |docs|)
      && (FindPair(docs, classId, studentId).None? ==> |r| == |docs| + 1 && r[..|docs|] == docs)
      && (forall j :: 0 <= j < |docs| && !IsPair(docs[j], classId, studentId) ==> r[j] == docs[j])
      && FindPair(r, classId, studentId).Some?
      && r[FindPair(r, classId, studentId).value] == Stored(classId, studentId, t, now)
  {
    var r := Upserted(docs, classId, studentId, t, now);
    match FindPair(docs, classId, studentId)
    case Some(i) =>
      forall j | 0 <= j < i ensures !IsPair(r[j], classId, studentId) {
        assert r[j] == docs[j];
      }
      FindPairIs(r, classId, studentId, i);
    case None =>
      forall j | 0 <= j < |docs| ensures !IsPair(r[j], classId, studentId) {
        assert r[j] == docs[j];
      }
      FindPairIs(r, classId, studentId, |docs|);
  }

  /** A second upsert for the same pair replaces the first: it adds no record,
      and the result is as if only the second had happened. */
  lemma UpsertTwice(docs: seq<MarksDoc>, classId: string, studentId: string,
                    t1: Transformed, now1: int, t2: Transformed, now2: int)
    ensures Upserted(Upserted(docs, classId, studentId, t1, now1), classId, studentId, t2, now2)
      == Upserted(docs, classId, studentId, t2, now2)
  {
    var r1 := Upserted(docs, classId, studentId, t1, now1);
    match FindPair(docs, classId, studentId)
    case Some(i) =>
      forall j | 0 <= j < i ensures !IsPair(r1[j], classId, studentId) {
        assert r1[j] == docs[j];
      }
      FindPairIs(r1, classId, studentId, i);
    case None =>
      forall j | 0 <= j < |docs| ensures !IsPair(r1[j], classId, studentId) {
        assert r1[j] == docs[j];
      }
      FindPairIs(r1, classId, studentId, |docs|);
  }

  /** The marks collection. */
  class MarksStore {
    var docs: seq<MarksDoc>

    ghost predicate Valid()
      reads this
    {
      UniquePairs(docs)
    }

    constructor ()
      ensures docs == [] && Valid()
    {
      docs := [];
    }

    /** Upsert the pair's record and return it as stored (`new: true`). */
    method Upsert(classId: string, studentId: string, t: Transformed, now: int) returns (doc: MarksDoc)
      requires Valid()
      modifies this
      ensures Valid()
      ensures docs == Upserted(old(docs), classId, studentId, t, now)
      ensures doc == Stored(classId, studentId, t, now)
    {
      UpsertSpec(docs, classId, studentId, t, now);
      var found := FindPair(docs, classId, studentId);
      doc := Stored(classId, studentId, t, now);
      if found.Some? {
        docs := docs[found.value := docs[found.value].(experiments := t.experiments,
                  experimentTotals := t.experimentTotals, totalMarks := t.totalMarks, updatedAt := now)];
      } else {
        docs := docs + [doc];
      }
    }
  }

  // ---------------------------------------------------------------------------
  // POST /api/marks

  datatype PostBody =
    | PostError(error: string)
    | ServerError
    | Updated(message: string, data: MarksDoc)

  datatype PostResponse = PostResponse(status: nat, body: PostBody)

  predicate MissingFields(req: MarkUpdate) {
    req.classId == "" || req.studentId == "" || req.marks.None?
  }

  /** POST /api/marks over the collection, given the ids of existing classes. */
  method Post(store: MarksStore, classes: set<string>, req: MarkUpdate, now: int) returns (resp: PostResponse)
    requires store.Valid()
    modifies store
    ensures store.Valid()
    ensures MissingFields(req) ==>
      resp == PostResponse(400, PostError("Missing required fields")) && store.docs == old(store.docs)
    ensures !MissingFields(req) && req.classId !in classes ==>
      resp == PostResponse(404, PostError("Class not found")) && store.docs == old(store.docs)
    ensures !MissingFields(req) && req.classId in classes && Normalized(req.marks.value).None? ==>
      resp == PostResponse(500, ServerError) && store.docs == old(store.docs)
    ensures !MissingFields(req) && req.classId in classes && Normalized(req.marks.value).Some? ==>
      var t := Normalized(req.marks.value).value;
      && store.docs == Upserted(old(store.docs), req.classId, req.studentId, t, now)
      && resp == PostResponse(200, Updated("Marks updated successfully", Stored(req.classId, req.studentId, t, now)))
  {
    if MissingFields(req) {
      return PostResponse(400, PostError("Missing required fields"));
    }
    if req.classId !in classes {
      return PostResponse(404, PostError("Class not found"));
    }
    var transformed := TransformMarks(req.marks.value);
    if transformed.None? {
      return PostResponse(500, ServerError);
    }
    var doc := store.Upsert(req.classId, req.studentId, transformed.value, now);
    resp := PostResponse(200, Updated("Marks updated successfully", doc));
  }

  // ---------------------------------------------------------------------------
  // GET /api/marks

  /** `find({ classId })`: the class's records, in collection order. */
  function Select(docs: seq<MarksDoc>, classId: string): (r: seq<MarksDoc>)
    ensures |r| <= |docs|
    ensures forall d :: d in r <==> d in docs && d.classId == classId
  {
    if docs == [] then []
    else if docs[0].classId == classId then [docs[0]] + Select(docs[1..], classId)
    else Select(docs[1..], classId)
  }

  /** Selecting keeps the collection order: the records of the class in two
      consecutive parts of the collection come out part by part. */
  lemma {:induction false} SelectAppend(a: seq<MarksDoc>, b: seq<MarksDoc>, classId: string)
    ensures Select(a + b, classId) == Select(a, classId) + Select(b, classId)
  {
    if a == [] {
      assert a + b == b;
    } else {
      assert (a + b)[0] == a[0] && (a + b)[1..] == a[1..] + b;
      SelectAppend(a[1..], b, classId);
    }
  }

  datatype GetBody =
    | GetError(error: string)
    | One(doc: MarksDoc)
    | Many(docs: seq<MarksDoc>)

  datatype GetResponse = GetResponse(status: nat, body: GetBody)

  /** GET /api/marks with the query's `classId` and `studentId` ("" when absent). */
  function Get(docs: seq<MarksDoc>, classes: set<string>, classId: string, studentId: string): (r: GetResponse)
    ensures r.status == 200 || r.status == 400 || r.status == 404
    ensures r.status == 200 ==> classId != "" && classId in classes
    ensures r.body.GetError? <==> r.status != 200
  {
    if classId == "" then GetResponse(400, GetError("Class ID is required"))
    else if classId !in classes then GetResponse(404, GetError("Class not found"))
    else if studentId != "" then
      match FindPair(docs, classId, studentId)
      case Some(i) => GetResponse(200, One(docs[i]))
      case None => GetResponse(404, GetError("No marks found for this student"))
    else GetResponse(200, Many(Select(docs, classId)))
  }

  /** GET answers 400 without a class id and 404 for an unknown class; with
      a student id it returns that pair's record, or 404 when there is none;
      without one it returns exactly the records of the class. */
  lemma GetSpec(docs: seq<MarksDoc>, classes: set<string>, classId: string, studentId: string)
    ensures var r := Get(docs, classes, classId, studentId);
      && (classId == "" <==> r.status == 400)
      && (classId != "" && classId !in classes ==> r == GetResponse(404, GetError("Class not found")))
      && (classId in classes && classId != "" && studentId != "" ==>
            && (r.status == 200 <==> exists j :: 0 <= j < |docs| && IsPair(docs[j], classId, studentId))
            && (r.status == 200 ==> r.body.One? && IsPair(r.body.doc, classId, studentId) && r.body.doc in docs)
            && (r.status != 200 ==> r == GetResponse(404, GetError("No marks found for this student"))))
      && (classId in classes && classId != "" && studentId == "" ==>
            r.status == 200 && r.body.Many? && forall d :: d in r.body.docs <==> d in docs && d.classId == classId)
  {
  }

  /** What a successful POST stored is what a GET for the pair returns. */
  lemma PostThenGet(docs: seq<MarksDoc>, classes: set<string>, classId: string, studentId: string,
                    t: Transformed, now: int)
    requires UniquePairs(docs) && classId in classes && classId != "" && studentId != ""
    ensures Get(Upserted(docs, classId, studentId, t, now), classes, classId, studentId)
      == GetResponse(200, One(Stored(classId, studentId, t, now)))
  {
    UpsertSpec(docs, classId, studentId, t, now);
  }
}
