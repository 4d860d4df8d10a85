/** When the list of offered ids is complete. */
module ModelListing {
  import opened Wrappers
  import opened ModelIndex

  // ----- is every current model listed?

  /** Every text under which a current model is offered is listed. */
  ghost predicate Complete(src: IdSource, st: Models) {
    forall m, id :: m in st.models && Offers(src, m, id) ==> id in st.ids
  }

  /** A model that goes away has `id` as one of its forms. */
  ghost predicate Departs(src: IdSource, before: seq<Model>, after: seq<Model>, id: string) {
    exists m :: m in before && FormOf(id, IdOf(src, m)) && !Has(src, after, IdOf(src, m))
  }

  /** A model that newly arrives offers `id`. */
  ghost predicate Arrives(src: IdSource, before: seq<Model>, after: seq<Model>, id: string) {
    exists m :: m in after && Offers(src, m, id) && !Has(src, before, IdOf(src, m))
  }

  /** The list is complete after an update exactly if everything the new models offer
      was listed before and is no form of a model that goes away, or is listed anew
      because a model that offers it arrives. */
  lemma CompleteExactly(src: IdSource, mode: FetchMode, st: Models, available: seq<AvailableModel>)
    ensures var after := Rebuild(src, mode, st, available);
            Complete(src, after) <==>
            forall m, id :: m in after.models && Offers(src, m, id) ==>
              || Arrives(src, st.models, after.models, id)
              || (id in st.ids && !Departs(src, st.models, after.models, id))
  {
    var after := Rebuild(src, mode, st, available);
    forall id
      ensures id in after.ids <==>
              || Arrives(src, st.models, after.models, id)
              || (id in st.ids && !Departs(src, st.models, after.models, id))
    {
      ListedAfter(src, mode, st, available, id);
    }
  }

  /** Removing one model can take another one's ids with it: once "x" goes, "x-max" is
      no longer listed although it is still there and still found. */
  lemma SiblingDropped()
    ensures var x := Model("x", "x", "x", false, false, false, true);
            var xMax := AvailableModel("x-max", None, None, None, None, None, None);
            var st := Initial(ById, [x, Convert(xMax)]);
            var after := Rebuild(ById, Truncate, st, [xMax]);
            && Complete(ById, st)
            && "x-max" in after.findIds && "x-max" !in after.ids
  {
    var x := Model("x", "x", "x", false, false, false, true);
    var xMax := AvailableModel("x-max", None, None, None, None, None, None);
    var models := [x, Convert(xMax)];
    var st := Initial(ById, models);
    InitialComplete(ById, models);
    var after := Rebuild(ById, Truncate, st, [xMax]);
    assert after.models == [Convert(xMax)];
    assert "x" + MAX == "x-max";
    assert x in st.models && FormOf("x-max", IdOf(ById, x));
    assert IdOf(ById, st.models[1]) == "x-max";
    assert forall m :: m in after.models ==> Has(ById, st.models, IdOf(ById, m));
    ListedAfter(ById, Truncate, st, [xMax], "x-max");
    IndexIsLast(ById, after.models, "x-max");
    assert IdOf(ById, after.models[0]) == "x-max";
  }

  /** A model that gains its max mode under an unchanged id is not listed with it. */
  lemma GainedMaxUnlisted()
    ensures var x := AvailableModel("x", None, None, None, None, None, Some(true));
            var xMax := x.(maxMode := Some(true));
            var st := Initial(ById, [Convert(x)]);
            var after := Rebuild(ById, Truncate, st, [xMax]);
            && Complete(ById, st)
            && Offers(ById, after.models[0], "x" + MAX) && "x" + MAX !in after.ids
  {
    var x := AvailableModel("x", None, None, None, None, None, Some(true));
    var xMax := x.(maxMode := Some(true));
    var models := [Convert(x)];
    var st := Initial(ById, models);
    InitialComplete(ById, models);
    var after := Rebuild(ById, Truncate, st, [xMax]);
    assert after.models == [Convert(xMax)];
    assert IdOf(ById, st.models[0]) == "x";
    assert forall m :: m in after.models ==> Has(ById, st.models, IdOf(ById, m));
    PushAllMember(ById, [], models, "x" + MAX);
    MaxIsAnotherText("x");
    ListedAfter(ById, Truncate, st, [xMax], "x" + MAX);
  }

  lemma MaxIsAnotherText(x: string)
    ensures x + MAX != x && x + MAX != x + ONLINE
  {
    assert |x + MAX| == |x| + 4 && |x + ONLINE| == |x| + 7;
  }

  lemma InitialComplete(src: IdSource, models: seq<Model>)
    ensures Complete(src, Initial(src, models))
  {
    forall m, id | m in models && Offers(src, m, id) ensures id in PushAll(src, [], models) {
      var i :| 0 <= i < |models| && models[i] == m;
      PushAllMember(src, [], models, id);
      assert Offers(src, models[i], id);
    }
  }

  /** No text under which `x` is offered is a form of another id in use. */
  ghost predicate ClashFree(all: set<string>, max: set<string>) {
    forall x, r, id :: x in all && r in all && x != r && OfferedAs(x, x in max, id) ==> !FormOf(id, r)
  }

  /** The ids in use are in `all`, and those offered with max forms are in `max`. */
  ghost predicate Named(src: IdSource, models: seq<Model>, all: set<string>, max: set<string>) {
    forall m :: m in models ==> IdOf(src, m) in all && (OffersMax(m) <==> IdOf(src, m) in max)
  }

  lemma {:induction false} WithoutNamesMember(models: seq<Model>, others: seq<Model>, m: Model)
    ensures m in WithoutNames(models, others) <==> m in models && !HasName(others, m.id)
    decreases |models|
  {
    if models == [] {
    } else {
      WithoutNamesMember(models[1..], others, m);
      assert models == [models[0]] + models[1..];
    }
  }

  lemma NewModelsNamed(src: IdSource, mode: FetchMode, current: seq<Model>, incoming: seq<Model>,
                       all: set<string>, max: set<string>)
    requires Named(src, current, all, max) && Named(src, incoming, all, max)
    ensures Named(src, NewModels(mode, current, incoming), all, max)
  {
    forall m | m in NewModels(mode, current, incoming)
      ensures IdOf(src, m) in all && (OffersMax(m) <==> IdOf(src, m) in max)
    {
      WithoutNamesMember(current, incoming, m);
      WithoutNamesMember(incoming, current, m);
    }
  }

  lemma NothingDeparts(src: IdSource, before: seq<Model>, after: seq<Model>, m: Model, id: string,
                       all: set<string>, max: set<string>)
    requires ClashFree(all, max) && Named(src, before, all, max) && Named(src, after, all, max)
    requires m in after && Offers(src, m, id)
    ensures !Departs(src, before, after, id)
  {
    var x := IdOf(src, m);
    HasOwn(src, after, m);
    forall r | r in before && !Has(src, after, IdOf(src, r)) ensures !FormOf(id, IdOf(src, r)) {
      assert IdOf(src, r) != x && OfferedAs(x, x in max, id);
    }
  }

  lemma KnownIsListed(src: IdSource, st: Models, m: Model, id: string, all: set<string>, max: set<string>)
    requires Complete(src, st) && Named(src, st.models, all, max) && Offers(src, m, id)
    requires Has(src, st.models, IdOf(src, m)) && (OffersMax(m) <==> IdOf(src, m) in max)
    ensures id in st.ids
  {
    var i :| 0 <= i < |st.models| && IdOf(src, st.models[i]) == IdOf(src, m);
    assert st.models[i] in st.models && Offers(src, st.models[i], id);
  }

  lemma RebuildComplete(src: IdSource, mode: FetchMode, st: Models, available: seq<AvailableModel>,
                        all: set<string>, max: set<string>)
    requires Complete(src, st) && ClashFree(all, max) && Named(src, st.models, all, max)
    requires Named(src, ConvertAll(available), all, max)
    ensures var after := Rebuild(src, mode, st, available); Complete(src, after) && Named(src, after.models, all, max)
  {
    var after := Rebuild(src, mode, st, available);
    NewModelsNamed(src, mode, st.models, ConvertAll(available), all, max);
    CompleteExactly(src, mode, st, available);
    forall m, id | m in after.models && Offers(src, m, id)
      ensures || Arrives(src, st.models, after.models, id)
              || (id in st.ids && !Departs(src, st.models, after.models, id))
    {
      if Has(src, st.models, IdOf(src, m)) {
        KnownIsListed(src, st, m, id, all, max);
        NothingDeparts(src, st.models, after.models, m, id, all, max);
      }
    }
  }

  /** If no id in use clashes with another and no model changes its max mode under the
      same id, everything current models offer stays listed over every run. */
  lemma {:induction false} CompleteForever(src: IdSource, st: Models, updates: seq<(FetchMode, seq<AvailableModel>)>,
                                           all: set<string>, max: set<string>)
    requires Complete(src, st) && ClashFree(all, max) && Named(src, st.models, all, max)
    requires forall u :: u in updates ==> Named(src, ConvertAll(u.1), all, max)
    ensures Complete(src, Run(src, st, updates))
    decreases |updates|
  {
    if updates == [] {
    } else {
      var (mode, available) := updates[0];
      assert Named(src, ConvertAll(updates[0].1), all, max);
      RebuildComplete(src, mode, st, available, all, max);
      var r := Step(src, mode, st, available);
      CompleteForever(src, if r.Ok? then r.value else st, updates[1..], all, max);
    }
  }

  lemma HasOwn(src: IdSource, models: seq<Model>, m: Model)
    requires m in models
    ensures Has(src, models, IdOf(src, m))
  {
    var i :| 0 <= i < |models| && models[i] == m;
    assert IdOf(src, models[i]) == IdOf(src, m);
  }
}
