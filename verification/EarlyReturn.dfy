/** Why, and when, a response with the same names may be ignored. */
module EarlyReturn {
  import opened Wrappers
  import opened Sequences
  import opened ModelIndex
  import opened ModelListing

  /** The same three names in the same order; capabilities may differ. */
  ghost predicate SameNames(a: seq<Model>, b: seq<Model>) {
    |a| == |b| &&
    forall i :: 0 <= i < |a| ==> a[i].id == b[i].id && a[i].clientId == b[i].clientId && a[i].serverId == b[i].serverId
  }

  lemma HasSame(src: IdSource, a: seq<Model>, b: seq<Model>, id: string)
    requires SameNames(a, b)
    ensures Has(src, a, id) <==> Has(src, b, id)
  {
    if Has(src, a, id) {
      var i :| 0 <= i < |a| && IdOf(src, a[i]) == id;
      assert IdOf(src, b[i]) == id;
    }
    if Has(src, b, id) {
      var i :| 0 <= i < |b| && IdOf(src, b[i]) == id;
      assert IdOf(src, a[i]) == id;
    }
  }

  lemma {:induction false} IndexSame(src: IdSource, a: seq<Model>, b: seq<Model>)
    requires SameNames(a, b)
    ensures Index(src, a) == Index(src, b)
    decreases |a|
  {
    if a == [] {
    } else {
      IndexSame(src, a[..|a| - 1], b[..|b| - 1]);
      assert IdOf(src, a[|a| - 1]) == IdOf(src, b[|b| - 1]);
    }
  }

  lemma {:induction false} WithoutNone(models: seq<Model>, others: seq<Model>)
    requires forall m :: m in models ==> !HasName(others, m.id)
    ensures WithoutNames(models, others) == models
    decreases |models|
  {
    if models == [] {
    } else {
      assert models[0] in models;
      WithoutNone(models[1..], others);
    }
  }

  lemma {:induction false} WithoutAll(models: seq<Model>, others: seq<Model>)
    requires forall m :: m in models ==> HasName(others, m.id)
    ensures WithoutNames(models, others) == []
    decreases |models|
  {
    if models == [] {
    } else {
      assert models[0] in models;
      WithoutAll(models[1..], others);
    }
  }

  lemma {:induction false} WithoutConcat(a: seq<Model>, b: seq<Model>, others: seq<Model>)
    ensures WithoutNames(a + b, others) == WithoutNames(a, others) + WithoutNames(b, others)
    decreases |a|
  {
    if a == [] {
      assert a + b == b;
    } else {
      WithoutConcat(a[1..], b, others);
      assert (a + b)[1..] == a[1..] + b;
      Assoc([a[0]], WithoutNames(a[1..], others), WithoutNames(b, others));
    }
  }

  lemma {:induction false} MissingNone(src: IdSource, models: seq<Model>, others: seq<Model>)
    requires forall m :: m in models ==> Has(src, others, IdOf(src, m))
    ensures Missing(src, models, others) == []
    decreases |models|
  {
    if models == [] {
    } else {
      assert models[0] in models;
      MissingNone(src, models[1..], others);
    }
  }

  lemma {:induction false} DropNothing(src: IdSource, ids: seq<string>)
    ensures DropStale(src, [], ids) == ids
    decreases |ids|
  {
    if ids == [] {
    } else {
      DropNothing(src, ids[1..]);
    }
  }

  lemma ReplacedAgain(current: seq<Model>, incoming: seq<Model>, again: seq<Model>)
    requires SameNames(incoming, again)
    ensures WithoutNames(WithoutNames(current, incoming) + incoming, again) == WithoutNames(current, incoming)
  {
    var kept := WithoutNames(current, incoming);
    WithoutConcat(kept, incoming, again);
    forall m | m in kept ensures !HasName(again, m.id) {
      WithoutNamesMember(current, incoming, m);
      HasSame(ById, incoming, again, m.id);
    }
    WithoutNone(kept, again);
    forall m | m in incoming ensures HasName(again, m.id) {
      HasOwn(ById, incoming, m);
      HasSame(ById, incoming, again, m.id);
    }
    WithoutAll(incoming, again);
  }

  lemma AppendedAgain(current: seq<Model>, incoming: seq<Model>, again: seq<Model>)
    requires SameNames(incoming, again)
    ensures WithoutNames(again, current + WithoutNames(incoming, current)) == []
  {
    var models := current + WithoutNames(incoming, current);
    forall m | m in again ensures HasName(models, m.id) {
      HasOwn(ById, again, m);
      HasSame(ById, incoming, again, m.id);
      var i :| 0 <= i < |incoming| && IdOf(ById, incoming[i]) == m.id;
      WithoutNamesMember(incoming, current, incoming[i]);
      if HasName(current, m.id) {
        var k :| 0 <= k < |current| && IdOf(ById, current[k]) == m.id;
        HasOwn(ById, models, current[k]);
      } else {
        HasOwn(ById, models, incoming[i]);
      }
    }
    WithoutAll(again, models);
  }

  lemma ModelsAgain(mode: FetchMode, current: seq<Model>, incoming: seq<Model>, again: seq<Model>)
    requires SameNames(incoming, again)
    ensures var models := NewModels(mode, current, incoming);
            SameNames(models, NewModels(mode, models, again))
  {
    match mode
    case Truncate =>
    case AppendTruncate => ReplacedAgain(current, incoming, again);
    case Append => AppendedAgain(current, incoming, again);
  }

  lemma NothingMissing(src: IdSource, a: seq<Model>, b: seq<Model>)
    requires SameNames(a, b)
    ensures Missing(src, a, b) == []
  {
    forall m | m in a ensures Has(src, b, IdOf(src, m)) {
      HasOwn(src, a, m);
      HasSame(src, a, b, IdOf(src, m));
    }
    MissingNone(src, a, b);
  }

  lemma ConvertedSame(available: seq<AvailableModel>, again: seq<AvailableModel>)
    requires SubsetEqual(available, again)
    ensures SameNames(ConvertAll(available), ConvertAll(again))
  {}

  lemma SameIds(src: IdSource, before: seq<Model>, after: seq<Model>, ids: seq<string>)
    requires SameNames(before, after)
    ensures PushAll(src, DropStale(src, Missing(src, before, after), ids), Missing(src, after, before)) == ids
  {
    NothingMissing(src, before, after);
    NothingMissing(src, after, before);
    DropNothing(src, ids);
  }

  /** Returning early when the names have not changed is a sound shortcut: in the mode
      of the last update the full update would list the same ids, build the same lookup
      table and hold the same models but for their capabilities. */
  lemma EarlyReturnIsSound(src: IdSource, mode: FetchMode, before: Models,
                           available: seq<AvailableModel>, again: seq<AvailableModel>)
    requires SubsetEqual(available, again)
    ensures var st := Rebuild(src, mode, before, available);
            var full := Rebuild(src, mode, st, again);
            full.ids == st.ids && full.findIds == st.findIds && SameNames(st.models, full.models)
  {
    var st := Rebuild(src, mode, before, available);
    ConvertedSame(available, again);
    ModelsAgain(mode, before.models, ConvertAll(available), ConvertAll(again));
    var models := NewModels(mode, st.models, ConvertAll(again));
    IndexSame(src, st.models, models);
    SameIds(src, st.models, models, st.ids);
  }

  // ----- in any mode

  /** Every model of the last response is among the current ones, by name. */
  ghost predicate Covered(st: Models) {
    st.raw.Some? ==> forall m :: m in ConvertAll(st.raw.value) ==> HasName(st.models, m.id)
  }

  lemma RebuildCovers(src: IdSource, mode: FetchMode, st: Models, available: seq<AvailableModel>)
    ensures Covered(Rebuild(src, mode, st, available))
  {
    var incoming := ConvertAll(available);
    var models := NewModels(mode, st.models, incoming);
    forall m | m in incoming ensures HasName(models, m.id) {
      WithoutNamesMember(incoming, st.models, m);
      if mode == Append && HasName(st.models, m.id) {
        var k :| 0 <= k < |st.models| && IdOf(ById, st.models[k]) == m.id;
        HasOwn(ById, models, st.models[k]);
      } else {
        HasOwn(ById, models, m);
      }
    }
  }

  lemma {:induction false} RunCovers(src: IdSource, st: Models, updates: seq<(FetchMode, seq<AvailableModel>)>)
    requires Covered(st)
    ensures Covered(Run(src, st, updates))
    decreases |updates|
  {
    if updates == [] {
    } else {
      var (mode, available) := updates[0];
      RebuildCovers(src, mode, st, available);
      var r := Step(src, mode, st, available);
      RunCovers(src, if r.Ok? then r.value else st, updates[1..]);
    }
  }

  /** How the current models must look for the response to change none of their names
      or places: they are the response, or they end with it, or anything. */
  ghost predicate UpToDate(mode: FetchMode, models: seq<Model>, incoming: seq<Model>) {
    match mode
    case Truncate => SameNames(models, incoming)
    case AppendTruncate =>
      var n := |models| - |incoming|;
      n >= 0 && SameNames(models[n..], incoming) && forall m :: m in models[..n] ==> !HasName(incoming, m.id)
    case Append => true
  }

  lemma CoveredAgain(st: Models, again: seq<AvailableModel>)
    requires Covered(st) && st.raw.Some? && SubsetEqual(st.raw.value, again)
    ensures WithoutNames(ConvertAll(again), st.models) == []
  {
    var raw, incoming := ConvertAll(st.raw.value), ConvertAll(again);
    ConvertedSame(st.raw.value, again);
    forall m | m in incoming ensures HasName(st.models, m.id) {
      var i :| 0 <= i < |incoming| && incoming[i] == m;
      assert raw[i] in raw && raw[i].id == m.id;
    }
    WithoutAll(incoming, st.models);
  }

  lemma TailReplaced(models: seq<Model>, incoming: seq<Model>)
    requires UpToDate(AppendTruncate, models, incoming)
    ensures SameNames(models, WithoutNames(models, incoming) + incoming)
    ensures WithoutNames(models, incoming) == models[..|models| - |incoming|]
  {
    var n := |models| - |incoming|;
    assert models == models[..n] + models[n..];
    WithoutConcat(models[..n], models[n..], incoming);
    WithoutNone(models[..n], incoming);
    forall m | m in models[n..] ensures HasName(incoming, m.id) {
      HasOwn(ById, models[n..], m);
      HasSame(ById, models[n..], incoming, m.id);
    }
    WithoutAll(models[n..], incoming);
  }

  lemma ReplacedTail(models: seq<Model>, incoming: seq<Model>)
    requires SameNames(models, WithoutNames(models, incoming) + incoming)
    ensures UpToDate(AppendTruncate, models, incoming)
  {
    var kept := WithoutNames(models, incoming);
    var n := |kept|;
    assert models[n..] == models[|models| - |incoming|..];
    forall i | 0 <= i < |incoming|
      ensures models[n..][i].id == incoming[i].id && models[n..][i].clientId == incoming[i].clientId &&
              models[n..][i].serverId == incoming[i].serverId
    {
      assert (kept + incoming)[n + i] == incoming[i];
    }
    forall m | m in models[..n] ensures !HasName(incoming, m.id) {
      var i :| 0 <= i < n && models[i] == m;
      assert (kept + incoming)[i] == kept[i];
      WithoutNamesMember(models, incoming, kept[i]);
    }
  }

  /** Whatever mode the update is made in, returning early gives the ids, the table and
      the models' names of the full update exactly if the current models look as that
      mode demands.  In append mode they always do; after a change to another mode they
      need not. */
  lemma EarlyReturnExactly(src: IdSource, mode: FetchMode, st: Models, again: seq<AvailableModel>)
    requires Inv(src, st) && Covered(st) && st.raw.Some? && SubsetEqual(st.raw.value, again)
    ensures var full := Rebuild(src, mode, st, again);
            full.ids == st.ids && full.findIds == st.findIds && SameNames(st.models, full.models) <==>
            UpToDate(mode, st.models, ConvertAll(again))
  {
    var incoming := ConvertAll(again);
    var models := NewModels(mode, st.models, incoming);
    if SameNames(st.models, models) {
      IndexSame(src, st.models, models);
      SameIds(src, st.models, models, st.ids);
      if mode == AppendTruncate { ReplacedTail(st.models, incoming); }
    }
    if UpToDate(mode, st.models, incoming) {
      match mode
      case Truncate =>
      case AppendTruncate => TailReplaced(st.models, incoming);
      case Append => CoveredAgain(st, again);
    }
  }

  lemma WholeExactly(models: seq<Model>, incoming: seq<Model>)
    ensures incoming == models <==>
            SameNames(models, incoming) && |incoming| <= |models| && models[|models| - |incoming|..] == incoming
  {
    if |incoming| == |models| { assert models[|models| - |incoming|..] == models; }
  }

  lemma TailFirst(models: seq<Model>, incoming: seq<Model>)
    requires WithoutNames(models, incoming) + incoming == models
    ensures |incoming| <= |models| && models[|models| - |incoming|..] == incoming
  {
    var kept := WithoutNames(models, incoming);
    assert (kept + incoming)[|kept|..] == incoming;
  }

  lemma TailLast(models: seq<Model>, incoming: seq<Model>)
    requires UpToDate(AppendTruncate, models, incoming) && models[|models| - |incoming|..] == incoming
    ensures WithoutNames(models, incoming) + incoming == models
  {
    TailReplaced(models, incoming);
    var n := |models| - |incoming|;
    assert models == models[..n] + models[n..];
  }

  lemma TailExactly(models: seq<Model>, incoming: seq<Model>)
    ensures WithoutNames(models, incoming) + incoming == models <==>
            UpToDate(AppendTruncate, models, incoming) && models[|models| - |incoming|..] == incoming
  {
    if WithoutNames(models, incoming) + incoming == models {
      ReplacedTail(models, incoming);
      TailFirst(models, incoming);
    }
    if UpToDate(AppendTruncate, models, incoming) && models[|models| - |incoming|..] == incoming {
      TailLast(models, incoming);
    }
  }

  /** The models themselves, capabilities included, are those of the full update exactly
      if the response brings no new capabilities either; in append mode it never does. */
  lemma CapabilitiesExactly(src: IdSource, mode: FetchMode, st: Models, again: seq<AvailableModel>)
    requires Covered(st) && st.raw.Some? && SubsetEqual(st.raw.value, again)
    ensures var full, incoming := Rebuild(src, mode, st, again), ConvertAll(again);
            full.models == st.models <==>
            UpToDate(mode, st.models, incoming) &&
            (mode != Append ==> |incoming| <= |st.models| && st.models[|st.models| - |incoming|..] == incoming)
  {
    var models, incoming := st.models, ConvertAll(again);
    match mode
    case Truncate => WholeExactly(models, incoming);
    case AppendTruncate => TailExactly(models, incoming);
    case Append => CoveredAgain(st, again);
  }

  /** A response is ignored exactly if it is the last one but for capabilities. */
  lemma IgnoredExactly(src: IdSource, mode: FetchMode, st: Models, again: seq<AvailableModel>)
    requires st.raw.Some? && again != []
    ensures SubsetEqual(st.raw.value, again) <==>
            |again| == |st.raw.value| &&
            forall i :: 0 <= i < |again| ==>
              var now := again[i];
              st.raw.value[i].(thinking := now.thinking, images := now.images,
                               maxMode := now.maxMode, nonMaxMode := now.nonMaxMode) == now
    ensures Step(src, mode, st, again) ==
            if SubsetEqual(st.raw.value, again) then Ok(st) else Ok(Rebuild(src, mode, st, again))
  {}

  /** A response that only adds max mode is ignored. */
  lemma CapabilityIgnored(src: IdSource)
    ensures var x := AvailableModel("x", None, None, None, None, None, None);
            var again := [x.(maxMode := Some(true))];
            var st := Rebuild(src, Truncate, Initial(src, []), [x]);
            && Step(src, Truncate, st, again) == Ok(st)
            && Rebuild(src, Truncate, st, again).models != st.models
  {
    var x := AvailableModel("x", None, None, None, None, None, None);
    var again := [x.(maxMode := Some(true))];
    assert ConvertAll([x])[0] == Convert(x) && ConvertAll(again)[0] == Convert(again[0]);
  }

  /** After a change of mode the early return can keep models the full update would
      drop. */
  lemma ModeChangeIgnored(src: IdSource, kept: Model)
    requires kept.id != "x"
    ensures var x := AvailableModel("x", None, None, None, None, None, None);
            var st := Rebuild(src, Append, Initial(src, [kept]), [x]);
            && Step(src, Truncate, st, [x]) == Ok(st)
            && kept in st.models && kept !in Rebuild(src, Truncate, st, [x]).models
  {
    var x := AvailableModel("x", None, None, None, None, None, None);
    assert ConvertAll([x]) == [Convert(x)];
    assert Rebuild(src, Append, Initial(src, [kept]), [x]).models[0] == kept;
  }
}
