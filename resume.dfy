/** GetResumePercent: for each record of a list, in place, compute
    `resume.percentage` from `resume.position`/`resume.total`, or from the
    `watchedepisodes`/`episode` counters when the record has no `resume`.
    The locals `currentValue` and `maxValue` live across iterations, so a
    record on which a lookup raises can see the previous record's values. */
module ResumePercent {
  import opened Records

  /** The loop-carried locals `currentValue` and `maxValue`; None while unbound. */
  datatype Locals = Locals(current: Option<Value>, max: Option<Value>)

  /** The locals before the first iteration. */
  const Unbound := Locals(None, None)

  /** One iteration: the record it leaves, the locals, and the exception
      that ends the loop, if any. */
  datatype Step = Step(item: Value, locals: Locals, raised: Option<PyError>)

  /** `float(resume[key])` */
  function FloatItem(resume: Value, key: string): Result<real>
  {
    match GetItem(resume, key)
    case Err(error) => Err(error)
    case Ok(v) => ToFloat(v)
  }

  /** `100.0 * currentValue / maxValue` for a non-zero `maxValue`. */
  function Percent(current: Value, max: Value): (r: Result<real>)
    requires !IsZero(max)
    ensures r.Ok? <==> AsNumber(current).Some? && AsNumber(max).Some?
    ensures r.Ok? ==> r.value * AsNumber(max).value == 100.0 * AsNumber(current).value
  {
    match (AsNumber(current), AsNumber(max))
    case (Some(c), Some(m)) => Ok(100.0 * c / m)
    case _ => Err(TypeError)
  }

  /** The `try` with its `except KeyError` and `else` clauses: look up the
      inputs and bind the locals. An exception raised here is pending: the
      `finally` clause still runs before it propagates. */
  function Lookup(item: Value, locals: Locals): Step
  {
    match GetItem(item, "resume")
    case Ok(resume) =>
      // else: maxValue = float(resume['total']); currentValue = float(resume['position'])
      (match FloatItem(resume, "total")
       case Err(error) => Step(item, locals, Some(error))
       case Ok(total) =>
         match FloatItem(resume, "position")
         case Err(error) => Step(item, Locals(locals.current, Some(Num(total))), Some(error))
         case Ok(position) => Step(item, Locals(Some(Num(position)), Some(Num(total))), None))
    case Err(KeyError(_)) =>
      // except KeyError: the counters, maxValue = 0 when one is missing; then item['resume'] = {}
      var counted :=
        match GetItem(item, "watchedepisodes")
        case Err(_) => Locals(locals.current, Some(Num(0.0)))
        case Ok(watched) =>
          match GetItem(item, "episode")
          case Err(_) => Locals(Some(watched), Some(Num(0.0)))
          case Ok(episode) => Locals(Some(watched), Some(episode));
      Step(Obj(item.fields["resume" := Obj(map[])]), counted, None)
    case Err(error) => Step(item, locals, Some(error))
  }

  /** The `finally` clause: compute the percentage from the locals and store
      it in `item['resume']`. An exception raised here replaces the pending
      one; otherwise the pending one propagates after the store. */
  function Finish(s: Step): Step
  {
    match s.locals.max
    case None => Step(s.item, s.locals, Some(UnboundLocal("maxValue")))
    case Some(max) =>
      var percent :=
        if IsZero(max) then Ok(0.0)
        else match s.locals.current
          case None => Err(UnboundLocal("currentValue"))
          case Some(current) => Percent(current, max);
      match percent
      case Err(error) => Step(s.item, s.locals, Some(error))
      case Ok(p) =>
        match GetItem(s.item, "resume")
        case Err(error) => Step(s.item, s.locals, Some(error))
        case Ok(resume) =>
          if !resume.Obj? then Step(s.item, s.locals, Some(TypeError))
          else Step(Obj(s.item.fields["resume" := Obj(resume.fields["percentage" := Num(p)])]), s.locals, s.raised)
  }

  /** One iteration of the loop of GetResumePercent. */
  function NormalizeItem(item: Value, locals: Locals): Step
  {
    Finish(Lookup(item, locals))
  }

  /** What GetResumePercent leaves: how it ended and the records. */
  datatype Batch = Batch(outcome: Outcome, items: seq<Value>)

  /** GetResumePercent over `items`, entered with `locals`. The first
      exception stops the loop; the record it was raised on keeps whatever
      the `finally` clause stored before it propagated. */
  function NormalizeAll(items: seq<Value>, locals: Locals): (b: Batch)
    ensures |b.items| == |items|
    decreases |items|
  {
    if items == [] then Batch(Done, [])
    else
      var s := NormalizeItem(items[0], locals);
      if s.raised.Some? then Batch(Raised(s.raised.value), [s.item] + items[1..])
      else
        var rest := NormalizeAll(items[1..], s.locals);
        Batch(rest.outcome, [s.item] + rest.items)
  }

  /** `b` with the records `done` put in front of its records; the same
      pair as Thumbnails.Prepend/PrependTwice, over this module's Batch. */
  function Prepend(done: seq<Value>, b: Batch): Batch
  {
    Batch(b.outcome, done + b.items)
  }

  lemma PrependTwice(a: seq<Value>, b: seq<Value>, e: Batch)
    ensures Prepend(a, Prepend(b, e)) == Prepend(a + b, e)
  {
    assert a + (b + e.items) == (a + b) + e.items;
  }

  /** NormalizeAll after its first record. */
  lemma NormalizeStep(items: seq<Value>, locals: Locals)
    requires items != []
    ensures var s := NormalizeItem(items[0], locals);
      NormalizeAll(items, locals)
        == if s.raised.Some? then Batch(Raised(s.raised.value), [s.item] + items[1..])
           else Prepend([s.item], NormalizeAll(items[1..], s.locals))
  {
  }

  /** An iteration of GetResumePercent that raises ends the batch: the
      record keeps what the `finally` clause stored, the rest are untouched. */
  lemma NormalizeStops(whole: Batch, done: seq<Value>, rest: seq<Value>, locals: Locals)
    requires rest != [] && whole == Prepend(done, NormalizeAll(rest, locals))
    requires NormalizeItem(rest[0], locals).raised.Some?
    ensures var s := NormalizeItem(rest[0], locals);
      whole == Batch(Raised(s.raised.value), done + [s.item] + rest[1..])
  {
    NormalizeStep(rest, locals);
    var s := NormalizeItem(rest[0], locals);
    assert done + ([s.item] + rest[1..]) == done + [s.item] + rest[1..];
  }

  /** An iteration of GetResumePercent that does not raise moves its record
      into the finished prefix and carries the locals on. */
  lemma NormalizeContinues(whole: Batch, done: seq<Value>, rest: seq<Value>, locals: Locals)
    requires rest != [] && whole == Prepend(done, NormalizeAll(rest, locals))
    requires NormalizeItem(rest[0], locals).raised.None?
    ensures var s := NormalizeItem(rest[0], locals);
      whole == Prepend(done + [s.item], NormalizeAll(rest[1..], s.locals))
  {
    NormalizeStep(rest, locals);
    var s := NormalizeItem(rest[0], locals);
    PrependTwice(done, [s.item], NormalizeAll(rest[1..], s.locals));
  }

  /** GetResumePercent, in place over the records of the list. */
  method GetResumePercent(items: array<Value>) returns (outcome: Outcome)
    modifies items
    ensures Batch(outcome, items[..]) == NormalizeAll(old(items[..]), Unbound)
  {
    ghost var original := items[..];
    ghost var whole := NormalizeAll(original, Unbound);
    var locals := Unbound;
    var i := 0;
    while i < items.Length
      invariant 0 <= i <= items.Length
      invariant items[i..] == original[i..]
      invariant whole == Prepend(items[..i], NormalizeAll(original[i..], locals))
    {
      ghost var done := items[..i];
      ghost var rest := original[i..];
      assert rest[0] == items[i] && rest[1..] == original[i + 1..];
      var s := NormalizeItem(items[i], locals);
      items[i] := s.item;
      if s.raised.Some? {
        NormalizeStops(whole, done, rest, locals);
        assert items[..] == done + [s.item] + rest[1..];
        return Raised(s.raised.value);
      }
      NormalizeContinues(whole, done, rest, locals);
      assert items[..i + 1] == done + [s.item];
      locals := s.locals;
      i := i + 1;
    }
    assert items[..] == items[..i];
    return Done;
  }

  // ---------------------------------------------------------------------
  // The well-formed shapes, and what GetResumePercent makes of them

  /** `100 * part / whole`, or 0 when `whole` is 0. */
  function Ratio(part: real, whole: real): real
  {
    if whole == 0.0 then 0.0 else 100.0 * part / whole
  }

  /** A record the loop processes without raising, whatever the locals: a
      dict whose `resume` is a dict with numeric `total` and `position`, or a
      dict without `resume` whose counters, when both are present, are numbers. */
  predicate WellFormed(item: Value)
  {
    && item.Obj?
    && if "resume" in item.fields then
         var resume := item.fields["resume"];
         && resume.Obj?
         && "total" in resume.fields && ToFloat(resume.fields["total"]).Ok?
         && "position" in resume.fields && ToFloat(resume.fields["position"]).Ok?
       else
         "watchedepisodes" in item.fields && "episode" in item.fields ==>
           AsNumber(item.fields["watchedepisodes"]).Some? && AsNumber(item.fields["episode"]).Some?
  }

  /** The percentage a well-formed record should get. */
  function ExpectedPercent(item: Value): real
    requires WellFormed(item)
  {
    if "resume" in item.fields then
      var resume := item.fields["resume"];
      Ratio(ToFloat(resume.fields["position"]).value, ToFloat(resume.fields["total"]).value)
    else if "watchedepisodes" in item.fields && "episode" in item.fields then
      Ratio(AsNumber(item.fields["watchedepisodes"]).value, AsNumber(item.fields["episode"]).value)
    else 0.0
  }

  /** The record as GetResumePercent should leave it, defined without the
      loop: `resume.percentage` set, an existing `resume` otherwise kept, a
      missing one replaced by a dict holding only the percentage. */
  function WithPercentage(item: Value): (r: Value)
    requires WellFormed(item)
    ensures r.Obj? && r.fields.Keys == item.fields.Keys + {"resume"}
    ensures forall k :: k in item.fields && k != "resume" ==> r.fields[k] == item.fields[k]
    ensures r.fields["resume"].Obj? && "percentage" in r.fields["resume"].fields
    ensures r.fields["resume"].fields["percentage"] == Num(ExpectedPercent(item))
    ensures "resume" in item.fields ==>
      var old_ := item.fields["resume"].fields;
      var new_ := r.fields["resume"].fields;
      new_.Keys == old_.Keys + {"percentage"} && forall k :: k in old_ && k != "percentage" ==> new_[k] == old_[k]
    ensures "resume" !in item.fields ==> r.fields["resume"].fields == map["percentage" := Num(ExpectedPercent(item))]
  {
    var resume := if "resume" in item.fields then item.fields["resume"].fields else map[];
    Obj(item.fields["resume" := Obj(resume["percentage" := Num(ExpectedPercent(item))])])
  }

  /** A well-formed record is normalised as WithPercentage says, without
      raising, whatever the locals left by earlier records. */
  lemma NormalizeWellFormedItem(item: Value, locals: Locals)
    requires WellFormed(item)
    ensures NormalizeItem(item, locals).raised == None
    ensures NormalizeItem(item, locals).item == WithPercentage(item)
  {
    var fields := item.fields;
    if "resume" in fields {
      var resume := fields["resume"];
      assert Lookup(item, locals).locals
        == Locals(Some(Num(ToFloat(resume.fields["position"]).value)), Some(Num(ToFloat(resume.fields["total"]).value)));
    } else if "watchedepisodes" in fields && "episode" in fields {
      var e := fields["episode"];
      assert Lookup(item, locals).locals == Locals(Some(fields["watchedepisodes"]), Some(e));
      if !IsZero(e) {
        var p := Percent(fields["watchedepisodes"], e).value;
        assert p == 100.0 * AsNumber(fields["watchedepisodes"]).value / AsNumber(e).value;
      }
    }
  }

  /** On a list of well-formed records GetResumePercent returns normally and
      leaves every record as WithPercentage says. */
  lemma {:induction false} NormalizeAllWellFormed(items: seq<Value>, locals: Locals)
    requires forall j :: 0 <= j < |items| ==> WellFormed(items[j])
    ensures NormalizeAll(items, locals).outcome == Done
    ensures forall j :: 0 <= j < |items| ==> NormalizeAll(items, locals).items[j] == WithPercentage(items[j])
    decreases |items|
  {
    if items != [] {
      var s := NormalizeItem(items[0], locals);
      NormalizeWellFormedItem(items[0], locals);
      NormalizeStep(items, locals);
      NormalizeAllWellFormed(items[1..], s.locals);
      forall j | 0 <= j < |items|
        ensures NormalizeAll(items, locals).items[j] == WithPercentage(items[j])
      {
        if j > 0 {
          assert items[j] == items[1..][j - 1];
        }
      }
    }
  }

  /** Whatever the other records, when GetResumePercent returns normally
      each well-formed record is left as WithPercentage says: the locals a
      malformed neighbour leaves behind do not reach it. */
  lemma {:induction false} NormalizeAllWellFormedRecords(items: seq<Value>, locals: Locals)
    ensures var b := NormalizeAll(items, locals);
      b.outcome == Done ==>
        forall j :: 0 <= j < |items| && WellFormed(items[j]) ==> b.items[j] == WithPercentage(items[j])
    decreases |items|
  {
    var b := NormalizeAll(items, locals);
    if items != [] && b.outcome == Done {
      var s := NormalizeItem(items[0], locals);
      NormalizeStep(items, locals);
      if WellFormed(items[0]) {
        NormalizeWellFormedItem(items[0], locals);
      }
      NormalizeAllWellFormedRecords(items[1..], s.locals);
      forall j | 0 <= j < |items| && WellFormed(items[j])
        ensures b.items[j] == WithPercentage(items[j])
      {
        if j > 0 {
          assert items[j] == items[1..][j - 1];
        }
      }
    }
  }

  /** A record that carries `resume.percentage`. */
  predicate HasPercentage(item: Value)
  {
    item.Obj? && "resume" in item.fields && item.fields["resume"].Obj?
    && "percentage" in item.fields["resume"].fields
  }

  /** `after` is the record `before` with `resume.percentage` in place and
      no key other than `resume` changed. */
  ghost predicate Completed(before: Value, after: Value)
  {
    && before.Obj? && HasPercentage(after)
    && after.fields.Keys == before.fields.Keys + {"resume"}
    && forall k :: k in before.fields && k != "resume" ==> after.fields[k] == before.fields[k]
  }

  /** One record that the loop leaves without raising is completed. */
  lemma NormalizeItemCompletes(item: Value, locals: Locals)
    ensures var s := NormalizeItem(item, locals);
      s.raised == None ==> Completed(item, s.item)
  {
  }

  /** Whatever the records, when GetResumePercent returns normally every
      record has `resume.percentage`, and no key other than `resume`
      changed. */
  lemma {:induction false} NormalizeAllCompletes(items: seq<Value>, locals: Locals)
    ensures var b := NormalizeAll(items, locals);
      b.outcome == Done ==> forall j :: 0 <= j < |items| ==> Completed(items[j], b.items[j])
    decreases |items|
  {
    var b := NormalizeAll(items, locals);
    if items != [] && b.outcome == Done {
      var s := NormalizeItem(items[0], locals);
      NormalizeStep(items, locals);
      NormalizeItemCompletes(items[0], locals);
      NormalizeAllCompletes(items[1..], s.locals);
      forall j | 0 <= j < |items|
        ensures Completed(items[j], b.items[j])
      {
        if j > 0 {
          assert items[j] == items[1..][j - 1];
        }
      }
    }
  }

  /** With 0 <= position <= total the percentage lies in [0, 100]. */
  lemma RatioInRange(part: real, whole: real)
    requires 0.0 <= part <= whole
    ensures 0.0 <= Ratio(part, whole) <= 100.0
  {
    if whole != 0.0 {
      assert 100.0 * part / whole * whole == 100.0 * part;
    }
  }

  // ---------------------------------------------------------------------
  // Malformed records and the loop-carried locals

  /** A `resume` without `position` after a well-formed record: the record
      gets a percentage computed from the previous record's position and its
      own total (100 * 50 / 200 = 25) before the KeyError propagates. */
  lemma StalePositionLeaks()
    ensures var first := Obj(map["resume" := Obj(map["position" := Num(50.0), "total" := Num(100.0)])]);
      var second := Obj(map["resume" := Obj(map["total" := Num(200.0)])]);
      var b := NormalizeAll([first, second], Unbound);
      && b.outcome == Raised(KeyError("position"))
      && b.items[1] == Obj(map["resume" := Obj(map["total" := Num(200.0), "percentage" := Num(25.0)])])
  {
    var first := Obj(map["resume" := Obj(map["position" := Num(50.0), "total" := Num(100.0)])]);
    var second := Obj(map["resume" := Obj(map["total" := Num(200.0)])]);
    var s1 := NormalizeItem(first, Unbound);
    assert s1.locals == Locals(Some(Num(50.0)), Some(Num(100.0)));
    assert [first, second][1..] == [second];
    var l2 := Lookup(second, s1.locals);
    assert l2 == Step(second, Locals(Some(Num(50.0)), Some(Num(200.0))), Some(KeyError("position")));
  }

  /** The same malformed `resume` as the first record: `currentValue` was
      never bound, so the `finally` clause raises UnboundLocalError instead
      of the KeyError, and the record is left as it was. */
  lemma FirstMalformedIsUnbound()
    ensures var item := Obj(map["resume" := Obj(map["total" := Num(200.0)])]);
      NormalizeAll([item], Unbound) == Batch(Raised(UnboundLocal("currentValue")), [item])
  {
  }
}
