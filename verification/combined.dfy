/** `CombinedResiduals`: a list of residual objects of either kind seen as
    one, with unitless concatenated residuals, a summed chi-squared, and
    data errors gathered through an ordered dictionary keyed by residual
    type. */
module Combined {
  import opened Wrappers
  import opened Errors
  import opened SeqMath
  import opened ChiSquared
  import opened OrderedDicts
  import opened ResidualFactory
  import T = ToaResidualsState
  import W = WidebandDm

  /** The invariant of whichever class the object belongs to. */
  predicate ValidAny(r: AnyResiduals)
  {
    match r
    case ToaRes(s) => T.Valid(s)
    case DmRes(s) => W.Valid(s)
  }

  predicate AllValid(rs: seq<AnyResiduals>)
  {
    forall i :: 0 <= i < |rs| ==> ValidAny(rs[i])
  }

  /** The object's `residual_type`, as given to its constructor. */
  function TypeOf(r: AnyResiduals): string
  {
    match r
    case ToaRes(s) => s.config.residualType
    case DmRes(s) => s.residualType
  }

  /** The object's `resids_value`. */
  function ResidsValueOf(r: AnyResiduals): (v: Result<seq<real>, Error>)
    requires ValidAny(r)
    ensures r.ToaRes? ==> v == T.ResidsValue(r.toa)
    ensures r.DmRes? ==> v == W.DmResidsValue(r.dm)
  {
    match r
    case ToaRes(s) => T.ResidsValue(s)
    case DmRes(s) => W.DmResidsValue(s)
  }

  /** The object's `data_error`, as plain numbers: the TOA errors in
      microseconds, or the DM errors. */
  function DataErrorOf(r: AnyResiduals): (e: Result<seq<real>, Error>)
    ensures r.ToaRes? ==> (e.Success? <==> r.toa.toas.Some?)
    ensures r.ToaRes? && e.Success? ==> e.value == r.toa.toas.value.errors
    ensures r.ToaRes? && e.Failure? ==> e.error == MissingInput
    ensures r.DmRes? ==> e == Success(r.dm.dmError)
  {
    match r
    case ToaRes(s) => if s.toas.None? then Failure(MissingInput) else Success(s.toas.value.errors)
    case DmRes(s) => Success(s.dmError)
  }

  /** Reading the object's `chi2` property: the value, and the object with
      its cache filled. */
  function Chi2OfAny(r: AnyResiduals, gls: GlsOracle): (c: Result<(Chi2, AnyResiduals), Error>)
    requires ValidAny(r)
    ensures r.ToaRes? ==> (c.Success? <==> T.Chi2Of(r.toa, gls).Success?)
    ensures r.ToaRes? && c.Success? ==> c.value == (T.Chi2Of(r.toa, gls).value.0, ToaRes(T.Chi2Of(r.toa, gls).value.1))
    ensures r.DmRes? ==> (c.Success? <==> W.DmChi2Of(r.dm).Success?)
    ensures r.DmRes? && c.Success? ==> c.value == (W.DmChi2Of(r.dm).value.0, DmRes(W.DmChi2Of(r.dm).value.1))
    ensures c.Success? ==> ValidAny(c.value.1) && TypeOf(c.value.1) == TypeOf(r)
  {
    match r
    case ToaRes(s) =>
      var p :- T.Chi2Of(s, gls);
      Success((p.0, ToaRes(p.1)))
    case DmRes(s) =>
      var p :- W.DmChi2Of(s);
      Success((p.0, DmRes(p.1)))
  }

  /** A second read of an object's `chi2` returns the first read's value and
      leaves the object as the first read left it. */
  lemma {:induction false} Chi2OfAnyReadTwice(r: AnyResiduals, gls: GlsOracle)
    requires ValidAny(r) && Chi2OfAny(r, gls).Success?
    ensures Chi2OfAny(Chi2OfAny(r, gls).value.1, gls) == Chi2OfAny(r, gls)
  {
    match r
    case ToaRes(s) => T.Chi2ReadTwice(s, gls);
    case DmRes(s) => W.DmChi2ReadTwice(s);
  }

  /** The values of a list of results, concatenated in order; the first
      failure makes the whole fail. */
  function ConcatResults(vs: seq<Result<seq<real>, Error>>): (r: Result<seq<real>, Error>)
    ensures r.Success? <==> forall i :: 0 <= i < |vs| ==> vs[i].Success?
    ensures r.Failure? ==>
              exists i :: 0 <= i < |vs| && vs[i] == Failure(r.error) && forall j :: 0 <= j < i ==> vs[j].Success?
    ensures |vs| == 1 ==> r == vs[0]
  {
    if |vs| == 0 then Success([])
    else
      var head :- vs[0];
      var tail :- ConcatResults(vs[1..]);
      assert |vs| == 1 ==> head + tail == head by {
        if |vs| == 1 {
          assert tail == [];
        }
      }
      Success(head + tail)
  }

  /** Concatenating two lists of results concatenates their values. */
  lemma {:induction false} ConcatResultsAppend(u: seq<Result<seq<real>, Error>>, v: seq<Result<seq<real>, Error>>)
    ensures ConcatResults(u + v).Success? <==> ConcatResults(u).Success? && ConcatResults(v).Success?
    ensures ConcatResults(u + v).Success? ==>
              ConcatResults(u + v).value == ConcatResults(u).value + ConcatResults(v).value
  {
    if |u| == 0 {
      assert u + v == v;
    } else {
      assert (u + v)[0] == u[0];
      assert (u + v)[1..] == u[1..] + v;
      ConcatResultsAppend(u[1..], v);
    }
  }

  /** Each object's `resids_value`, in list order. */
  function ResidsValues(rs: seq<AnyResiduals>): (vs: seq<Result<seq<real>, Error>>)
    requires AllValid(rs)
    ensures |vs| == |rs|
    ensures forall i :: 0 <= i < |rs| ==> vs[i] == ResidsValueOf(rs[i])
  {
    seq(|rs|, i requires 0 <= i < |rs| => ResidsValueOf(rs[i]))
  }

  /** The `resids` property: every object's `resids_value`, concatenated in
      list order; the first object that fails makes the whole fail, and
      with no objects there is nothing to concatenate. */
  function CombinedResids(rs: seq<AnyResiduals>): (r: Result<seq<real>, Error>)
    requires AllValid(rs)
    ensures |rs| == 0 ==> r == Failure(NothingToConcatenate)
    ensures |rs| > 0 ==> (r.Success? <==> forall i :: 0 <= i < |rs| ==> ResidsValueOf(rs[i]).Success?)
    ensures |rs| > 0 && r.Failure? ==>
              exists i :: 0 <= i < |rs| && ResidsValueOf(rs[i]) == Failure(r.error)
                          && forall j :: 0 <= j < i ==> ResidsValueOf(rs[j]).Success?
    ensures |rs| == 1 ==> r == ResidsValueOf(rs[0])
  {
    if |rs| == 0 then Failure(NothingToConcatenate)
    else ConcatResults(ResidsValues(rs))
  }

  /** Concatenating two non-empty lists concatenates their combined
      residuals; an empty part contributes nothing. */
  lemma {:induction false} CombinedResidsAppend(a: seq<AnyResiduals>, b: seq<AnyResiduals>)
    requires AllValid(a) && AllValid(b)
    ensures AllValid(a + b)
    ensures |a| == 0 ==> CombinedResids(a + b) == CombinedResids(b)
    ensures |b| == 0 ==> CombinedResids(a + b) == CombinedResids(a)
    ensures |a| > 0 && |b| > 0 ==>
              (CombinedResids(a + b).Success? <==> CombinedResids(a).Success? && CombinedResids(b).Success?)
    ensures |a| > 0 && |b| > 0 && CombinedResids(a + b).Success? ==>
              CombinedResids(a + b).value == CombinedResids(a).value + CombinedResids(b).value
  {
    AllValidAppend(a, b);
    if |a| == 0 {
      assert a + b == b;
    } else if |b| == 0 {
      assert a + b == a;
    } else {
      assert ResidsValues(a + b) == ResidsValues(a) + ResidsValues(b);
      ConcatResultsAppend(ResidsValues(a), ResidsValues(b));
    }
  }

  /** A TOA and a DM residual object on the same TOA set, each with one
      residual per TOA, combine to twice as many residuals. */
  lemma {:induction false} CombinedLength(toa: AnyResiduals, dm: AnyResiduals, ntoas: nat)
    requires ValidAny(toa) && ValidAny(dm)
    requires ResidsValueOf(toa).Success? && |ResidsValueOf(toa).value| == ntoas
    requires ResidsValueOf(dm).Success? && |ResidsValueOf(dm).value| == ntoas
    ensures CombinedResids([toa, dm]).Success?
    ensures |CombinedResids([toa, dm]).value| == 2 * ntoas
  {
    CombinedResidsAppend([toa], [dm]);
    assert [toa] + [dm] == [toa, dm];
  }

  /** A read outcome of one object's `chi2`: the value and the object
      afterwards, or the error. */
  type Read = Result<(Chi2, AnyResiduals), Error>

  /** Every read before position `k` succeeded. */
  predicate OkBefore(outcomes: seq<Read>, k: nat)
    requires k <= |outcomes|
  {
    forall j :: 0 <= j < k ==> outcomes[j].Success?
  }

  /** The object at position `i` once the loop has run over the given read
      outcomes: the read's object if the loop reached position `i` and
      the read succeeded, the original otherwise. */
  function AfterAt(outcomes: seq<Read>, objs: seq<AnyResiduals>, i: nat): AnyResiduals
    requires |outcomes| == |objs| && i < |objs|
  {
    if OkBefore(outcomes, i) && outcomes[i].Success? then outcomes[i].value.1 else objs[i]
  }

  /** The loop of the `chi2` property over the objects' read outcomes:
      starting from 0, add each value in list order. The first failing read
      ends the loop, with the objects read before it updated and the rest
      untouched. */
  function FoldReads(outcomes: seq<Read>, objs: seq<AnyResiduals>): (Result<Chi2, Error>, seq<AnyResiduals>)
    requires |outcomes| == |objs|
  {
    if |objs| == 0 then (Success(Finite(0.0)), [])
    else
      var n := |objs|;
      var (sofar, done) := FoldReads(outcomes[..n - 1], objs[..n - 1]);
      if sofar.Failure? then (sofar, done + [objs[n - 1]])
      else
        match outcomes[n - 1]
        case Failure(e) => (Failure(e), done + [objs[n - 1]])
        case Success((c, o)) => (Success(sofar.value.Plus(c)), done + [o])
  }

  /** The running total after two lists joined: the first failure of
      either part, or the sum of the two totals. */
  function Chi2Then(x: Result<Chi2, Error>, y: Result<Chi2, Error>): Result<Chi2, Error>
  {
    if x.Failure? then x else if y.Failure? then y else Success(x.value.Plus(y.value))
  }

  /** A read outcome without the object. */
  function ValueOf(r: Read): Result<Chi2, Error>
  {
    match r
    case Failure(e) => Failure(e)
    case Success(p) => Success(p.0)
  }

  /** One more object: its read counts only if the loop got that far. */
  lemma {:induction false} FoldSnoc(outcomes: seq<Read>, objs: seq<AnyResiduals>, r: Read, x: AnyResiduals)
    requires |outcomes| == |objs|
    ensures FoldReads(outcomes + [r], objs + [x]).0 == Chi2Then(FoldReads(outcomes, objs).0, ValueOf(r))
    ensures FoldReads(outcomes + [r], objs + [x]).1 ==
              FoldReads(outcomes, objs).1 + [if FoldReads(outcomes, objs).0.Success? && r.Success? then r.value.1 else x]
  {
    assert (outcomes + [r])[..|outcomes|] == outcomes;
    assert (objs + [x])[..|objs|] == objs;
  }

  /** The loop succeeds exactly when every read does, and otherwise fails
      with the error of the first failing read. */
  lemma {:induction false} FoldOutcome(outcomes: seq<Read>, objs: seq<AnyResiduals>)
    requires |outcomes| == |objs|
    ensures FoldReads(outcomes, objs).0.Success? <==> OkBefore(outcomes, |outcomes|)
    ensures FoldReads(outcomes, objs).0.Failure? ==>
              exists k :: 0 <= k < |outcomes| && OkBefore(outcomes, k) && outcomes[k] == Failure(FoldReads(outcomes, objs).0.error)
  {
    if |objs| > 0 {
      var n := |objs|;
      var rp := outcomes[..n - 1];
      FoldOutcome(rp, objs[..n - 1]);
      assert forall j :: 0 <= j < n - 1 ==> rp[j] == outcomes[j];
      if FoldReads(rp, objs[..n - 1]).0.Failure? {
        var k :| 0 <= k < n - 1 && OkBefore(rp, k) && rp[k] == Failure(FoldReads(rp, objs[..n - 1]).0.error);
        assert outcomes[k] == rp[k];
      }
    }
  }

  /** After the loop, each object is as `AfterAt` says. */
  lemma {:induction false} FoldObjects(outcomes: seq<Read>, objs: seq<AnyResiduals>)
    requires |outcomes| == |objs|
    ensures |FoldReads(outcomes, objs).1| == |objs|
    ensures forall i :: 0 <= i < |objs| ==> FoldReads(outcomes, objs).1[i] == AfterAt(outcomes, objs, i)
  {
    if |objs| > 0 {
      var n := |objs|;
      var rp, op := outcomes[..n - 1], objs[..n - 1];
      FoldObjects(rp, op);
      FoldOutcome(rp, op);
      assert forall j :: 0 <= j < n - 1 ==> rp[j] == outcomes[j] && op[j] == objs[j];
      assert OkBefore(rp, n - 1) <==> OkBefore(outcomes, n - 1);
      forall i | 0 <= i < n - 1
        ensures AfterAt(rp, op, i) == AfterAt(outcomes, objs, i)
      {
        assert OkBefore(rp, i) <==> OkBefore(outcomes, i);
      }
    }
  }

  /** A successful loop is infinite exactly when some read's value is. */
  lemma {:induction false} FoldInfinite(outcomes: seq<Read>, objs: seq<AnyResiduals>)
    requires |outcomes| == |objs|
    ensures FoldReads(outcomes, objs).0.Success? ==> OkBefore(outcomes, |outcomes|)
    ensures FoldReads(outcomes, objs).0.Success? ==>
              (FoldReads(outcomes, objs).0.value == Infinite <==>
                 exists i :: 0 <= i < |outcomes| && outcomes[i].value.0 == Infinite)
  {
    FoldOutcome(outcomes, objs);
    if |objs| > 0 && FoldReads(outcomes, objs).0.Success? {
      var n := |objs|;
      var rp := outcomes[..n - 1];
      FoldInfinite(rp, objs[..n - 1]);
      FoldOutcome(rp, objs[..n - 1]);
      assert forall j :: 0 <= j < n - 1 ==> rp[j] == outcomes[j];
      var sofar := FoldReads(rp, objs[..n - 1]).0.value;
      if sofar == Infinite {
        var i :| 0 <= i < n - 1 && rp[i].value.0 == Infinite;
        assert outcomes[i] == rp[i];
      }
    }
  }

  /** Zero is the identity of chi-squared addition. */
  lemma {:induction false} PlusZero(c: Chi2)
    ensures Finite(0.0).Plus(c) == c && c.Plus(Finite(0.0)) == c
  {
  }

  /** Chi-squared addition is associative, infinity absorbing. */
  lemma {:induction false} PlusAssociative(x: Chi2, y: Chi2, z: Chi2)
    ensures x.Plus(y).Plus(z) == x.Plus(y.Plus(z))
  {
  }

  lemma {:induction false} Chi2ThenAssociative(x: Result<Chi2, Error>, y: Result<Chi2, Error>, z: Result<Chi2, Error>)
    ensures Chi2Then(Chi2Then(x, y), z) == Chi2Then(x, Chi2Then(y, z))
  {
    if x.Success? && y.Success? && z.Success? {
      PlusAssociative(x.value, y.value, z.value);
    }
  }

  /** The total over two lists joined: the first failure, or the sum. */
  lemma {:induction false} FoldAppendTotal(ra: seq<Read>, oa: seq<AnyResiduals>, rb: seq<Read>, ob: seq<AnyResiduals>)
    requires |ra| == |oa| && |rb| == |ob|
    ensures FoldReads(ra + rb, oa + ob).0 == Chi2Then(FoldReads(ra, oa).0, FoldReads(rb, ob).0)
  {
    if |ob| == 0 {
      assert ra + rb == ra && oa + ob == oa;
      if FoldReads(ra, oa).0.Success? {
        PlusZero(FoldReads(ra, oa).0.value);
      }
    } else {
      var n := |ob|;
      var rf, of := rb[..n - 1], ob[..n - 1];
      assert rb == rf + [rb[n - 1]] && ob == of + [ob[n - 1]];
      assert ra + rb == (ra + rf) + [rb[n - 1]] && oa + ob == (oa + of) + [ob[n - 1]];
      FoldAppendTotal(ra, oa, rf, of);
      FoldSnoc(ra + rf, oa + of, rb[n - 1], ob[n - 1]);
      FoldSnoc(rf, of, rb[n - 1], ob[n - 1]);
      Chi2ThenAssociative(FoldReads(ra, oa).0, FoldReads(rf, of).0, ValueOf(rb[n - 1]));
    }
  }

  /** The objects after the loop over two lists joined: the second list is
      left untouched when the first fails. */
  lemma {:induction false} FoldAppendObjects(ra: seq<Read>, oa: seq<AnyResiduals>, rb: seq<Read>, ob: seq<AnyResiduals>)
    requires |ra| == |oa| && |rb| == |ob|
    ensures FoldReads(ra + rb, oa + ob).1 ==
              FoldReads(ra, oa).1 + (if FoldReads(ra, oa).0.Success? then FoldReads(rb, ob).1 else ob)
  {
    if |ob| == 0 {
      assert ra + rb == ra && oa + ob == oa;
      assert FoldReads(ra, oa).1 + [] == FoldReads(ra, oa).1;
    } else {
      var n := |ob|;
      var rf, of, r, x := rb[..n - 1], ob[..n - 1], rb[n - 1], ob[n - 1];
      assert rb == rf + [r] && ob == of + [x];
      assert ra + rb == (ra + rf) + [r] && oa + ob == (oa + of) + [x];
      FoldAppendObjects(ra, oa, rf, of);
      FoldAppendTotal(ra, oa, rf, of);
      FoldSnoc(ra + rf, oa + of, r, x);
      FoldSnoc(rf, of, r, x);
      ObjectsStep(FoldReads(ra, oa).1, FoldReads(rf, of).1, of, x,
                  FoldReads(ra + rf, oa + of).1, FoldReads(ra + rb, oa + ob).1, FoldReads(rb, ob).1,
                  FoldReads(ra, oa).0.Success?, FoldReads(rf, of).0.Success?, r.Success?,
                  if r.Success? then r.value.1 else x);
    }
  }

  /** The sequence step of `FoldAppendObjects`, with the loop's outcomes as
      flags. */
  lemma {:induction false} ObjectsStep(
    done: seq<AnyResiduals>, doneFront: seq<AnyResiduals>, front: seq<AnyResiduals>, x: AnyResiduals,
    joined: seq<AnyResiduals>, whole: seq<AnyResiduals>, doneB: seq<AnyResiduals>,
    aOk: bool, frontOk: bool, xOk: bool, xRead: AnyResiduals)
    requires joined == done + (if aOk then doneFront else front)
    requires whole == joined + [if aOk && frontOk && xOk then xRead else x]
    requires doneB == doneFront + [if frontOk && xOk then xRead else x]
    ensures whole == done + (if aOk then doneB else front + [x])
  {
  }

  /** Reading again from objects that a successful loop left, where each
      read returns the value of the first read and changes nothing, gives
      the same outcome. */
  lemma {:induction false} FoldReadTwice(outcomes: seq<Read>, objs: seq<AnyResiduals>, again: seq<Read>, after: seq<AnyResiduals>)
    requires |outcomes| == |objs| == |again| == |after|
    requires OkBefore(outcomes, |outcomes|)
    requires forall i :: 0 <= i < |outcomes| ==> after[i] == outcomes[i].value.1
    requires forall i :: 0 <= i < |outcomes| ==> again[i] == Success((outcomes[i].value.0, after[i]))
    ensures FoldReads(again, after) == FoldReads(outcomes, objs)
  {
    if |objs| > 0 {
      var n := |objs|;
      var rp, op, ap, fp := outcomes[..n - 1], objs[..n - 1], again[..n - 1], after[..n - 1];
      assert forall j :: 0 <= j < n - 1 ==> rp[j] == outcomes[j] && ap[j] == again[j] && fp[j] == after[j];
      assert OkBefore(rp, n - 1);
      FoldReadTwice(rp, op, ap, fp);
      FoldOutcome(rp, op);
      assert outcomes[n - 1] == Success((outcomes[n - 1].value.0, after[n - 1]));
    }
  }

  /** Each object's `chi2` read, in list order. */
  function Reads(rs: seq<AnyResiduals>, gls: GlsOracle): (outcomes: seq<Read>)
    requires AllValid(rs)
    ensures |outcomes| == |rs|
    ensures forall i :: 0 <= i < |rs| ==> outcomes[i] == Chi2OfAny(rs[i], gls)
  {
    seq(|rs|, i requires 0 <= i < |rs| => Chi2OfAny(rs[i], gls))
  }

  /** Every object before position `k` has a readable `chi2`. */
  predicate ReadableBefore(rs: seq<AnyResiduals>, k: nat, gls: GlsOracle)
    requires AllValid(rs) && k <= |rs|
  {
    forall j :: 0 <= j < k ==> Chi2OfAny(rs[j], gls).Success?
  }

  /** The object at position `i` once the loop of the `chi2` property has
      run: updated by its own read if the loop reached it and the read
      succeeded, as it was otherwise. */
  function AfterLoop(rs: seq<AnyResiduals>, i: nat, gls: GlsOracle): AnyResiduals
    requires AllValid(rs) && i < |rs|
  {
    if ReadableBefore(rs, i, gls) && Chi2OfAny(rs[i], gls).Success? then Chi2OfAny(rs[i], gls).value.1 else rs[i]
  }

  /** The `chi2` property: the total, and the objects afterwards. It fails
      exactly when one object's `chi2` fails, with the first such error; it is
      infinite exactly when some object's is; and every object the loop got
      to is left as its own read of `chi2` leaves it, the others as they
      were. */
  function CombinedChi2(rs: seq<AnyResiduals>, gls: GlsOracle): (r: (Result<Chi2, Error>, seq<AnyResiduals>))
    requires AllValid(rs)
    ensures r.0.Success? <==> forall i :: 0 <= i < |rs| ==> Chi2OfAny(rs[i], gls).Success?
    ensures r.0.Failure? ==>
              exists k :: 0 <= k < |rs| && ReadableBefore(rs, k, gls) && Chi2OfAny(rs[k], gls) == Failure(r.0.error)
    ensures |r.1| == |rs| && AllValid(r.1)
    ensures forall i :: 0 <= i < |rs| ==> r.1[i] == AfterLoop(rs, i, gls)
    ensures r.0.Success? ==>
              (r.0.value == Infinite <==> exists i :: 0 <= i < |rs| && Chi2OfAny(rs[i], gls).value.0 == Infinite)
  {
    var outcomes := Reads(rs, gls);
    CombinedOutcome(rs, gls);
    CombinedObjects(rs, gls);
    FoldInfinite(outcomes, rs);
    FoldReads(outcomes, rs)
  }

  /** The combined outcome: success exactly when every read succeeds,
      otherwise the first failing read's error. */
  lemma {:induction false} CombinedOutcome(rs: seq<AnyResiduals>, gls: GlsOracle)
    requires AllValid(rs)
    ensures FoldReads(Reads(rs, gls), rs).0.Success? <==> forall i :: 0 <= i < |rs| ==> Chi2OfAny(rs[i], gls).Success?
    ensures FoldReads(Reads(rs, gls), rs).0.Failure? ==>
              exists k :: 0 <= k < |rs| && ReadableBefore(rs, k, gls)
                          && Chi2OfAny(rs[k], gls) == Failure(FoldReads(Reads(rs, gls), rs).0.error)
  {
    var outcomes := Reads(rs, gls);
    FoldOutcome(outcomes, rs);
    if FoldReads(outcomes, rs).0.Failure? {
      var k :| 0 <= k < |outcomes| && OkBefore(outcomes, k) && outcomes[k] == Failure(FoldReads(outcomes, rs).0.error);
      assert ReadableBefore(rs, k, gls);
    }
  }

  /** The combined objects: each as `AfterLoop` says. */
  lemma {:induction false} CombinedObjects(rs: seq<AnyResiduals>, gls: GlsOracle)
    requires AllValid(rs)
    ensures |FoldReads(Reads(rs, gls), rs).1| == |rs| && AllValid(FoldReads(Reads(rs, gls), rs).1)
    ensures forall i :: 0 <= i < |rs| ==> FoldReads(Reads(rs, gls), rs).1[i] == AfterLoop(rs, i, gls)
  {
    var outcomes := Reads(rs, gls);
    FoldObjects(outcomes, rs);
    forall i | 0 <= i < |rs|
      ensures AfterAt(outcomes, rs, i) == AfterLoop(rs, i, gls)
    {
      assert OkBefore(outcomes, i) <==> ReadableBefore(rs, i, gls);
    }
  }

  lemma {:induction false} AllValidAppend(a: seq<AnyResiduals>, b: seq<AnyResiduals>)
    requires AllValid(a) && AllValid(b)
    ensures AllValid(a + b)
  {
    assert forall i :: 0 <= i < |a + b| ==> (a + b)[i] == if i < |a| then a[i] else b[i - |a|];
  }

  /** The total is additive: the chi-squared of a joined list is the sum of
      the chi-squared of its parts, the first failure winning; a failure in
      the first part leaves the second part's objects untouched. */
  lemma {:induction false} CombinedChi2Append(a: seq<AnyResiduals>, b: seq<AnyResiduals>, gls: GlsOracle)
    requires AllValid(a) && AllValid(b)
    ensures AllValid(a + b)
    ensures CombinedChi2(a + b, gls).0 == Chi2Then(CombinedChi2(a, gls).0, CombinedChi2(b, gls).0)
    ensures CombinedChi2(a + b, gls).1 ==
              CombinedChi2(a, gls).1 + (if CombinedChi2(a, gls).0.Success? then CombinedChi2(b, gls).1 else b)
  {
    AllValidAppend(a, b);
    assert Reads(a + b, gls) == Reads(a, gls) + Reads(b, gls);
    FoldAppendTotal(Reads(a, gls), a, Reads(b, gls), b);
    FoldAppendObjects(Reads(a, gls), a, Reads(b, gls), b);
  }

  /** Two objects combine to the sum of their own chi-squared values. */
  lemma {:induction false} Chi2OfPair(x: AnyResiduals, y: AnyResiduals, gls: GlsOracle)
    requires ValidAny(x) && ValidAny(y)
    requires Chi2OfAny(x, gls).Success? && Chi2OfAny(y, gls).Success?
    ensures CombinedChi2([x, y], gls).0 == Success(Chi2OfAny(x, gls).value.0.Plus(Chi2OfAny(y, gls).value.0))
  {
    var rx, ry := Chi2OfAny(x, gls), Chi2OfAny(y, gls);
    assert Reads([x, y], gls) == [rx, ry];
    FoldSnoc([], [], rx, x);
    assert [] + [rx] == [rx] && [] + [x] == [x];
    FoldSnoc([rx], [x], ry, y);
    assert [rx] + [ry] == [rx, ry] && [x] + [y] == [x, y];
    PlusZero(rx.value.0);
  }

  /** Reading the combined `chi2` again, from the objects a successful first
      read left, gives the same total and changes nothing further. */
  lemma {:induction false} CombinedChi2ReadTwice(rs: seq<AnyResiduals>, gls: GlsOracle)
    requires AllValid(rs)
    requires CombinedChi2(rs, gls).0.Success?
    ensures CombinedChi2(CombinedChi2(rs, gls).1, gls) == CombinedChi2(rs, gls)
  {
    var after := CombinedChi2(rs, gls).1;
    var outcomes := Reads(rs, gls);
    forall i | 0 <= i < |rs|
      ensures after[i] == outcomes[i].value.1
      ensures Chi2OfAny(after[i], gls) == Success((outcomes[i].value.0, after[i]))
    {
      assert after[i] == AfterLoop(rs, i, gls);
      assert ReadableBefore(rs, i, gls);
      Chi2OfAnyReadTwice(rs[i], gls);
    }
    assert OkBefore(outcomes, |outcomes|);
    FoldReadTwice(outcomes, rs, Reads(after, gls), after);
  }

  /** The (type, data error) pairs `get_data_error` feeds to the ordered
      dictionary, in list order. */
  function ErrorPairs(rs: seq<AnyResiduals>): (r: Result<seq<Entry<seq<real>>>, Error>)
    ensures r.Success? <==> forall i :: 0 <= i < |rs| ==> DataErrorOf(rs[i]).Success?
    ensures r.Failure? ==> r.error == MissingInput
    ensures r.Success? ==> |r.value| == |rs|
    ensures r.Success? ==> forall i :: 0 <= i < |rs| ==> r.value[i] == Entry(TypeOf(rs[i]), DataErrorOf(rs[i]).value)
  {
    if |rs| == 0 then Success([])
    else
      var e :- DataErrorOf(rs[0]);
      var rest :- ErrorPairs(rs[1..]);
      Success([Entry(TypeOf(rs[0]), e)] + rest)
  }

  /** The values of an ordered dictionary of error vectors, concatenated. */
  function Flatten(d: seq<Entry<seq<real>>>): seq<real>
  {
    if |d| == 0 then [] else d[0].value + Flatten(d[1..])
  }

  /** `get_data_error`: the ordered dictionary from residual type to data
      error. A type that occurs twice keeps its first position and its last
      object's errors. */
  function GetDataError(rs: seq<AnyResiduals>): (r: Result<seq<Entry<seq<real>>>, Error>)
    ensures r.Success? <==> ErrorPairs(rs).Success?
    ensures r.Failure? ==> r.error == MissingInput
    ensures r.Success? ==> Represents(r.value, ErrorPairs(rs).value)
  {
    var pairs :- ErrorPairs(rs);
    Success(OrderedDictOf(pairs))
  }

  /** The `data_error` property: the dictionary's error vectors joined; an
      empty dictionary has nothing to concatenate. */
  function CombinedDataError(rs: seq<AnyResiduals>): (r: Result<seq<real>, Error>)
    ensures |rs| == 0 ==> r == Failure(NothingToConcatenate)
    ensures |rs| > 0 ==> (r.Success? <==> forall i :: 0 <= i < |rs| ==> DataErrorOf(rs[i]).Success?)
    ensures |rs| > 0 && r.Failure? ==> r.error == MissingInput
    ensures r.Success? ==> GetDataError(rs).Success? && r.value == Flatten(GetDataError(rs).value)
    ensures r.Success? ==> r.value == ErrorsByType(rs, FirstOccurrences(Types(rs)))
  {
    var d :- GetDataError(rs);
    KeysInFirstOrder(ErrorPairs(rs).value);
    assert Keys(ErrorPairs(rs).value) == Types(rs);
    FlattenByType(rs, d);
    EmptyExactlyWithoutPairs(ErrorPairs(rs).value);
    if |d| == 0 then Failure(NothingToConcatenate) else Success(Flatten(d))
  }

  /** The residual type of each object, in list order. */
  function Types(rs: seq<AnyResiduals>): (ts: seq<string>)
    ensures |ts| == |rs|
    ensures forall i :: 0 <= i < |rs| ==> ts[i] == TypeOf(rs[i])
  {
    seq(|rs|, i requires 0 <= i < |rs| => TypeOf(rs[i]))
  }

  /** The position of the last object of type `t` among the first `n`. */
  function LastOfType(rs: seq<AnyResiduals>, t: string, n: nat): (i: nat)
    requires n <= |rs|
    requires exists j :: 0 <= j < n && TypeOf(rs[j]) == t
    ensures i < n && TypeOf(rs[i]) == t
    ensures forall j :: i < j < n ==> TypeOf(rs[j]) != t
  {
    if TypeOf(rs[n - 1]) == t then n - 1 else LastOfType(rs, t, n - 1)
  }

  /** For each type of `types` in turn, the data errors of the last object
      of that type, concatenated. */
  function ErrorsByType(rs: seq<AnyResiduals>, types: seq<string>): seq<real>
    requires forall i :: 0 <= i < |rs| ==> DataErrorOf(rs[i]).Success?
    requires forall k :: 0 <= k < |types| ==> types[k] in Types(rs)
  {
    if |types| == 0 then []
    else
      assert exists j :: 0 <= j < |rs| && TypeOf(rs[j]) == types[0] by {
        var ts := Types(rs);
        assert types[0] in ts;
        var j :| 0 <= j < |ts| && ts[j] == types[0];
        assert TypeOf(rs[j]) == types[0];
      }
      DataErrorOf(rs[LastOfType(rs, types[0], |rs|)]).value + ErrorsByType(rs, types[1..])
  }

  /** `data_error` for any list: over the residual types in the order they
      first occur, the data errors of the last object of each type. A type
      that recurs keeps its first place but takes its last object's
      errors. */
  lemma {:induction false} DataErrorByType(rs: seq<AnyResiduals>)
    requires forall i :: 0 <= i < |rs| ==> DataErrorOf(rs[i]).Success?
    ensures |rs| > 0 ==> CombinedDataError(rs) == Success(ErrorsByType(rs, FirstOccurrences(Types(rs))))
  {
    if |rs| > 0 {
      var pairs := ErrorPairs(rs).value;
      assert CombinedDataError(rs).Success?;
    }
  }

  /** Flattening a dictionary whose entries are the last pairs of their
      types gives the last objects' errors, type by type. */
  lemma {:induction false} FlattenByType(rs: seq<AnyResiduals>, d: seq<Entry<seq<real>>>)
    requires forall i :: 0 <= i < |rs| ==> DataErrorOf(rs[i]).Success?
    requires LastValues(d, ErrorPairs(rs).value)
    ensures forall k :: 0 <= k < |d| ==> Keys(d)[k] in Types(rs)
    ensures Flatten(d) == ErrorsByType(rs, Keys(d))
  {
    var pairs := ErrorPairs(rs).value;
    forall k | 0 <= k < |d|
      ensures Keys(d)[k] in Types(rs)
    {
      var i := LastIndex(pairs, d[k].key);
      assert Types(rs)[i] == d[k].key;
    }
    if |d| > 0 {
      var t := d[0].key;
      var i := LastIndex(pairs, t);
      var j := LastOfType(rs, t, |rs|);
      assert i == j;
      assert Keys(d)[1..] == Keys(d[1..]);
      FlattenByType(rs, d[1..]);
    }
  }

  /** The data errors of objects of distinct types, one after another: with
      distinct types nothing is merged. */
  function ErrorsInOrder(rs: seq<AnyResiduals>): seq<real>
    requires forall i :: 0 <= i < |rs| ==> DataErrorOf(rs[i]).Success?
  {
    if |rs| == 0 then [] else DataErrorOf(rs[0]).value + ErrorsInOrder(rs[1..])
  }

  /** When every object has its own residual type, `data_error` is every
      object's data error, concatenated in list order. */
  lemma {:induction false} DistinctTypesDataError(rs: seq<AnyResiduals>)
    requires forall i :: 0 <= i < |rs| ==> DataErrorOf(rs[i]).Success?
    requires forall i, j :: 0 <= i < j < |rs| ==> TypeOf(rs[i]) != TypeOf(rs[j])
    ensures |rs| > 0 ==> CombinedDataError(rs) == Success(ErrorsInOrder(rs))
  {
    var pairs := ErrorPairs(rs).value;
    assert DistinctKeys(pairs);
    DistinctPairsKept(pairs);
    FlattenPairs(rs);
  }

  lemma {:induction false} FlattenPairs(rs: seq<AnyResiduals>)
    requires forall i :: 0 <= i < |rs| ==> DataErrorOf(rs[i]).Success?
    ensures Flatten(ErrorPairs(rs).value) == ErrorsInOrder(rs)
  {
    if |rs| > 0 {
      FlattenPairs(rs[1..]);
    }
  }

  /** Two objects of the same residual type leave only the second one's
      errors in `data_error`, even though both contribute residuals. */
  lemma {:induction false} SameTypeKeepsLast(x: AnyResiduals, y: AnyResiduals)
    requires DataErrorOf(x).Success? && DataErrorOf(y).Success?
    requires TypeOf(x) == TypeOf(y)
    ensures CombinedDataError([x, y]) == Success(DataErrorOf(y).value)
  {
    var pairs := ErrorPairs([x, y]).value;
    assert pairs == [pairs[0], pairs[1]];
    SameKeyKeepsLast(pairs[0], pairs[1]);
    assert GetDataError([x, y]) == Success([pairs[1]]);
    assert [pairs[1]][1..] == [] && Flatten([]) == [];
    assert Flatten([pairs[1]]) == pairs[1].value + [] == DataErrorOf(y).value;
    assert CombinedDataError([x, y]) == Success(Flatten([pairs[1]]));
  }

  /** What the combined `rms_weighted` hands to the weighted-RMS routine:
      the data errors are read and checked for zeros first, then the
      residuals are gathered and paired with the weights `1 / error²`. */
  function CombinedRmsInputs(rs: seq<AnyResiduals>): (r: Result<(seq<real>, seq<real>), Error>)
    requires AllValid(rs)
    ensures CombinedDataError(rs).Failure? ==> r == Failure(CombinedDataError(rs).error)
    ensures CombinedDataError(rs).Success? && !AllNonzero(CombinedDataError(rs).value) ==>
              r == Failure(ZeroErrorsForRms)
    ensures CombinedDataError(rs).Success? && AllNonzero(CombinedDataError(rs).value) ==>
              (r.Success? <==> CombinedResids(rs).Success?)
              && (r.Failure? ==> r.error == CombinedResids(rs).error)
    ensures r.Success? ==>
              && CombinedDataError(rs).Success? && AllNonzero(CombinedDataError(rs).value)
              && r.value.0 == CombinedResids(rs).value
              && r.value.1 == Weights(CombinedDataError(rs).value)
  {
    var errors :- CombinedDataError(rs);
    if !AllNonzero(errors) then Failure(ZeroErrorsForRms)
    else
      match CombinedResids(rs)
      case Failure(e) => Failure(e)
      case Success(resids) => Success((resids, Weights(errors)))
  }
}
