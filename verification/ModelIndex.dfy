/** The list of available models, the ids under which they are offered and the lookup
    table, kept up to date by incremental updates. */
module ModelIndex {
  import opened Wrappers

  /** Which of a model's three names is its public id. */
  datatype IdSource = ById | ByClientId | ByServerId

  datatype Model = Model(id: string, clientId: string, serverId: string,
                         isThinking: bool, isImage: bool, isMax: bool, isNonMax: bool)

  /** One entry of the server's response. */
  datatype AvailableModel = AvailableModel(
    name: string, clientName: Option<string>, serverName: Option<string>,
    thinking: Option<bool>, images: Option<bool>, maxMode: Option<bool>, nonMaxMode: Option<bool>)

  datatype FetchMode = Truncate | AppendTruncate | Append

  datatype Models = Models(models: seq<Model>, raw: Option<seq<AvailableModel>>, ids: seq<string>, findIds: map<string, nat>)

  function IdOf(src: IdSource, m: Model): string {
    match src
    case ById => m.id
    case ByClientId => m.clientId
    case ByServerId => m.serverId
  }

  function OrElse<T>(o: Option<T>, d: T): T { if o.Some? then o.value else d }

  /** `convert_model`. */
  function Convert(a: AvailableModel): Model {
    var server := OrElse(a.serverName, a.name);
    Model(a.name, OrElse(a.clientName, a.name), server,
          OrElse(a.thinking, false), server == "default" || OrElse(a.images, false),
          OrElse(a.maxMode, false), OrElse(a.nonMaxMode, false))
  }

  function ConvertAll(available: seq<AvailableModel>): (r: seq<Model>)
    ensures |r| == |available| && forall i :: 0 <= i < |r| ==> r[i] == Convert(available[i])
  {
    if available == [] then [] else [Convert(available[0])] + ConvertAll(available[1..])
  }

  /** `is_subset_equal`: the names agree, whatever the capabilities. */
  predicate SubsetEqual(a: seq<AvailableModel>, b: seq<AvailableModel>) {
    |a| == |b| &&
    forall i :: 0 <= i < |a| ==>
      a[i].name == b[i].name && a[i].clientName == b[i].clientName && a[i].serverName == b[i].serverName
  }

  // ----- the forms of an id

  const ONLINE: string := "-online"
  const MAX: string := "-max"

  function StripSuffix(s: string, suffix: string): (r: Option<string>)
    ensures r.Some? <==> exists x :: s == x + suffix
    ensures r.Some? ==> s == r.value + suffix
  {
    if |s| >= |suffix| && s[|s| - |suffix|..] == suffix then
      assert s == s[..|s| - |suffix|] + suffix;
      Some(s[..|s| - |suffix|])
    else None
  }

  /** The four texts under which a model with this id can be offered. */
  predicate FormOf(id: string, mid: string) {
    id == mid || id == mid + ONLINE || id == mid + MAX || id == mid + MAX + ONLINE
  }

  /** The test by which `update` recognises the ids of a removed model. */
  predicate Recognised(id: string, mid: string) {
    id == mid ||
    match StripSuffix(id, ONLINE)
    case Some(base) => base == mid || StripSuffix(base, MAX) == Some(mid)
    case None => StripSuffix(id, MAX) == Some(mid)
  }

  lemma Strips(x: string, suffix: string)
    ensures StripSuffix(x + suffix, suffix) == Some(x)
  {
    assert (x + suffix)[|x|..] == suffix && (x + suffix)[..|x|] == x;
  }

  lemma MaxNotOnline(x: string)
    ensures StripSuffix(x + MAX, ONLINE) == None
  {
    assert (x + MAX)[|x| + 3] == 'x';
    forall y ensures y + ONLINE != x + MAX { assert (y + ONLINE)[|y| + 6] == 'e'; }
  }

  /** The nested suffix tests recognise exactly the four forms. */
  lemma RecognisedIsForm(id: string, mid: string)
    ensures Recognised(id, mid) <==> FormOf(id, mid)
  {
    if id == mid + ONLINE { Strips(mid, ONLINE); }
    if id == mid + MAX { Strips(mid, MAX); MaxNotOnline(mid); }
    if id == mid + MAX + ONLINE { Strips(mid + MAX, ONLINE); Strips(mid, MAX); }
  }

  // ----- one update

  predicate Has(src: IdSource, models: seq<Model>, id: string) {
    exists i :: 0 <= i < |models| && IdOf(src, models[i]) == id
  }

  predicate HasName(models: seq<Model>, name: string) { Has(ById, models, name) }

  /** Models whose own name is, or is not, among the names of `others`. */
  function WithoutNames(models: seq<Model>, others: seq<Model>): seq<Model> {
    if models == [] then []
    else if HasName(others, models[0].id) then WithoutNames(models[1..], others)
    else [models[0]] + WithoutNames(models[1..], others)
  }

  function NewModels(mode: FetchMode, current: seq<Model>, incoming: seq<Model>): seq<Model> {
    match mode
    case Truncate => incoming
    case AppendTruncate => WithoutNames(current, incoming) + incoming
    case Append => current + WithoutNames(incoming, current)
  }

  /** Models of `models` whose public id no model of `others` has. */
  function Missing(src: IdSource, models: seq<Model>, others: seq<Model>): seq<Model> {
    if models == [] then []
    else if Has(src, others, IdOf(src, models[0])) then Missing(src, models[1..], others)
    else [models[0]] + Missing(src, models[1..], others)
  }

  predicate Stale(src: IdSource, removed: seq<Model>, id: string) {
    exists i :: 0 <= i < |removed| && Recognised(id, IdOf(src, removed[i]))
  }

  function DropStale(src: IdSource, removed: seq<Model>, ids: seq<string>): seq<string> {
    if ids == [] then []
    else if Stale(src, removed, ids[0]) then DropStale(src, removed, ids[1..])
    else [ids[0]] + DropStale(src, removed, ids[1..])
  }

  /** `push_ids`. */
  function PushIds(ids: seq<string>, id: string): seq<string> { ids + [id, id + ONLINE] }

  function PushModel(src: IdSource, ids: seq<string>, m: Model): seq<string> {
    var id := IdOf(src, m);
    var ids1 := PushIds(ids, id);
    if OffersMax(m) then PushIds(ids1, id + MAX) else ids1
  }

  function PushAll(src: IdSource, ids: seq<string>, added: seq<Model>): seq<string>
    decreases |added|
  {
    if added == [] then ids else PushAll(src, PushModel(src, ids, added[0]), added[1..])
  }

  /** `HashMap::from_iter`: of two models with one id the later one wins. */
  function Index(src: IdSource, models: seq<Model>): map<string, nat> {
    if models == [] then map[]
    else Index(src, models[..|models| - 1])[IdOf(src, models[|models| - 1]) := |models| - 1]
  }

  /** The whole update, without the early return. */
  function Rebuild(src: IdSource, mode: FetchMode, st: Models, available: seq<AvailableModel>): Models {
    var models := NewModels(mode, st.models, ConvertAll(available));
    var ids := PushAll(src, DropStale(src, Missing(src, st.models, models), st.ids), Missing(src, models, st.models));
    Models(models, Some(available), ids, Index(src, models))
  }

  function Step(src: IdSource, mode: FetchMode, st: Models, available: seq<AvailableModel>): Result<Models, string> {
    if available == [] then Err("Models list cannot be empty")
    else if st.raw.Some? && SubsetEqual(st.raw.value, available) then Ok(st)
    else Ok(Rebuild(src, mode, st, available))
  }

  function Initial(src: IdSource, models: seq<Model>): Models {
    Models(models, None, PushAll(src, [], models), Index(src, models))
  }

  /** An update and the mode it is made in; a refused one changes nothing. */
  function Run(src: IdSource, st: Models, updates: seq<(FetchMode, seq<AvailableModel>)>): Models
    decreases |updates|
  {
    if updates == [] then st
    else
      var r := Step(src, updates[0].0, st, updates[0].1);
      Run(src, if r.Ok? then r.value else st, updates[1..])
  }

  // ----- what every update keeps

  /** Every listed id is a form of a current model. */
  ghost predicate NothingStale(src: IdSource, st: Models) {
    forall id :: id in st.ids ==> OfCurrent(src, st.models, id)
  }

  ghost predicate OfCurrent(src: IdSource, models: seq<Model>, id: string) {
    exists i :: 0 <= i < |models| && FormOf(id, IdOf(src, models[i]))
  }

  ghost predicate UniqueNames(models: seq<Model>) {
    forall i, j :: 0 <= i < j < |models| ==> models[i].id != models[j].id
  }

  ghost predicate Inv(src: IdSource, st: Models) {
    st.findIds == Index(src, st.models) && NothingStale(src, st)
  }

  /** The table holds exactly the ids of the listed models, each with the last position
      at which it occurs. */
  lemma {:induction false} IndexIsLast(src: IdSource, models: seq<Model>, id: string)
    ensures id in Index(src, models) <==> Has(src, models, id)
    ensures id in Index(src, models) ==>
              var i := Index(src, models)[id];
              i < |models| && IdOf(src, models[i]) == id && forall j :: i < j < |models| ==> IdOf(src, models[j]) != id
    decreases |models|
  {
    if models == [] {
    } else {
      var init := models[..|models| - 1];
      IndexIsLast(src, init, id);
      assert forall j :: 0 <= j < |init| ==> init[j] == models[j];
      if Has(src, init, id) {
        var j :| 0 <= j < |init| && IdOf(src, init[j]) == id;
        assert IdOf(src, models[j]) == id;
      }
      if Has(src, models, id) && IdOf(src, models[|models| - 1]) != id {
        var j :| 0 <= j < |models| && IdOf(src, models[j]) == id;
        assert IdOf(src, init[j]) == id;
      }
    }
  }

  lemma {:induction false} MissingMember(src: IdSource, models: seq<Model>, others: seq<Model>, m: Model)
    ensures m in Missing(src, models, others) <==> m in models && !Has(src, others, IdOf(src, m))
    decreases |models|
  {
    if models == [] {
    } else {
      MissingMember(src, models[1..], others, m);
      assert models == [models[0]] + models[1..];
    }
  }

  lemma {:induction false} DropStaleMember(src: IdSource, removed: seq<Model>, ids: seq<string>, id: string)
    ensures id in DropStale(src, removed, ids) <==> id in ids && !Stale(src, removed, id)
    decreases |ids|
  {
    if ids == [] {
    } else {
      DropStaleMember(src, removed, ids[1..], id);
      assert ids == [ids[0]] + ids[1..];
    }
  }

  /** The texts under which a model is offered, with or without its max forms. */
  predicate OfferedAs(mid: string, max: bool, id: string) {
    id == mid || id == mid + ONLINE || (max && (id == mid + MAX || id == mid + MAX + ONLINE))
  }

  predicate OffersMax(m: Model) { m.isMax && m.isNonMax }

  /** What a model adds to the list. */
  predicate Offers(src: IdSource, m: Model, id: string) { OfferedAs(IdOf(src, m), OffersMax(m), id) }

  ghost predicate OfferedBy(src: IdSource, added: seq<Model>, id: string) {
    exists i :: 0 <= i < |added| && Offers(src, added[i], id)
  }

  lemma PushModelMember(src: IdSource, ids: seq<string>, m: Model, id: string)
    ensures id in PushModel(src, ids, m) <==> id in ids || Offers(src, m, id)
  {}

  lemma {:induction false} PushAllMember(src: IdSource, ids: seq<string>, added: seq<Model>, id: string)
    ensures id in PushAll(src, ids, added) <==> id in ids || OfferedBy(src, added, id)
    decreases |added|
  {
    if added == [] {
    } else {
      PushModelMember(src, ids, added[0], id);
      PushAllMember(src, PushModel(src, ids, added[0]), added[1..], id);
      if OfferedBy(src, added[1..], id) {
        var i :| 0 <= i < |added[1..]| && Offers(src, added[1..][i], id);
        assert Offers(src, added[i + 1], id);
      }
      if OfferedBy(src, added, id) && !Offers(src, added[0], id) {
        var i :| 0 <= i < |added| && Offers(src, added[i], id);
        assert Offers(src, added[1..][i - 1], id);
      }
    }
  }

  lemma StaleMeans(src: IdSource, models: seq<Model>, others: seq<Model>, id: string)
    ensures Stale(src, Missing(src, models, others), id) <==>
            exists m :: m in models && FormOf(id, IdOf(src, m)) && !Has(src, others, IdOf(src, m))
  {
    var removed := Missing(src, models, others);
    if Stale(src, removed, id) {
      var i :| 0 <= i < |removed| && Recognised(id, IdOf(src, removed[i]));
      RecognisedIsForm(id, IdOf(src, removed[i]));
      MissingMember(src, models, others, removed[i]);
    }
    forall m | m in models && FormOf(id, IdOf(src, m)) && !Has(src, others, IdOf(src, m))
      ensures Stale(src, removed, id)
    {
      MissingMember(src, models, others, m);
      RecognisedIsForm(id, IdOf(src, m));
      var i :| 0 <= i < |removed| && removed[i] == m;
      assert Recognised(id, IdOf(src, removed[i]));
    }
  }

  lemma AddedMeans(src: IdSource, models: seq<Model>, others: seq<Model>, id: string)
    ensures OfferedBy(src, Missing(src, models, others), id) <==>
            exists m :: m in models && Offers(src, m, id) && !Has(src, others, IdOf(src, m))
  {
    var added := Missing(src, models, others);
    if OfferedBy(src, added, id) {
      var i :| 0 <= i < |added| && Offers(src, added[i], id);
      MissingMember(src, models, others, added[i]);
    }
    forall m | m in models && Offers(src, m, id) && !Has(src, others, IdOf(src, m))
      ensures OfferedBy(src, added, id)
    {
      MissingMember(src, models, others, m);
      var i :| 0 <= i < |added| && added[i] == m;
      assert Offers(src, added[i], id);
    }
  }

  /** Exactly what is listed after an update: the ids listed before that are no form of
      a model that went away, and the ids that newly arrived models offer. */
  lemma ListedAfter(src: IdSource, mode: FetchMode, st: Models, available: seq<AvailableModel>, id: string)
    ensures var after := Rebuild(src, mode, st, available);
            id in after.ids <==>
            || (id in st.ids &&
                !exists m :: m in st.models && FormOf(id, IdOf(src, m)) && !Has(src, after.models, IdOf(src, m)))
            || (exists m :: m in after.models && Offers(src, m, id) && !Has(src, st.models, IdOf(src, m)))
  {
    var models := NewModels(mode, st.models, ConvertAll(available));
    var removed, added := Missing(src, st.models, models), Missing(src, models, st.models);
    DropStaleMember(src, removed, st.ids, id);
    PushAllMember(src, DropStale(src, removed, st.ids), added, id);
    StaleMeans(src, st.models, models, id);
    AddedMeans(src, models, st.models, id);
  }

  lemma StillCurrent(src: IdSource, before: seq<Model>, after: seq<Model>, id: string)
    requires OfCurrent(src, before, id)
    requires !exists m :: m in before && FormOf(id, IdOf(src, m)) && !Has(src, after, IdOf(src, m))
    ensures OfCurrent(src, after, id)
  {
    var i :| 0 <= i < |before| && FormOf(id, IdOf(src, before[i]));
    var k :| 0 <= k < |after| && IdOf(src, after[k]) == IdOf(src, before[i]);
    assert FormOf(id, IdOf(src, after[k]));
  }

  lemma OfferedIsCurrent(src: IdSource, after: seq<Model>, m: Model, id: string)
    requires m in after && Offers(src, m, id)
    ensures OfCurrent(src, after, id)
  {
    var i :| 0 <= i < |after| && after[i] == m;
    assert FormOf(id, IdOf(src, after[i]));
  }

  lemma ListedIsCurrent(src: IdSource, mode: FetchMode, st: Models, available: seq<AvailableModel>, id: string)
    requires NothingStale(src, st) && id in Rebuild(src, mode, st, available).ids
    ensures OfCurrent(src, Rebuild(src, mode, st, available).models, id)
  {
    var models := Rebuild(src, mode, st, available).models;
    ListedAfter(src, mode, st, available, id);
    if m :| m in models && Offers(src, m, id) && !Has(src, st.models, IdOf(src, m)) {
      OfferedIsCurrent(src, models, m, id);
    } else {
      StillCurrent(src, st.models, models, id);
    }
  }

  lemma RebuildKeeps(src: IdSource, mode: FetchMode, st: Models, available: seq<AvailableModel>)
    requires Inv(src, st)
    ensures Inv(src, Rebuild(src, mode, st, available))
  {
    var after := Rebuild(src, mode, st, available);
    forall id | id in after.ids ensures OfCurrent(src, after.models, id) {
      ListedIsCurrent(src, mode, st, available, id);
    }
  }

  lemma InitialInv(src: IdSource, models: seq<Model>)
    ensures Inv(src, Initial(src, models))
  {
    forall id | id in Initial(src, models).ids ensures OfCurrent(src, models, id) {
      PushAllMember(src, [], models, id);
      var i :| 0 <= i < |models| && Offers(src, models[i], id);
      assert FormOf(id, IdOf(src, models[i]));
    }
  }

  lemma {:induction false} RunKeeps(src: IdSource, st: Models, updates: seq<(FetchMode, seq<AvailableModel>)>)
    requires Inv(src, st)
    ensures Inv(src, Run(src, st, updates))
    decreases |updates|
  {
    if updates == [] {
    } else {
      var (mode, available) := updates[0];
      RebuildKeeps(src, mode, st, available);
      var r := Step(src, mode, st, available);
      RunKeeps(src, if r.Ok? then r.value else st, updates[1..]);
    }
  }

  /** After any updates in any modes: a lookup succeeds exactly for the ids of current
      models, finds a position in bounds that carries the id, and no listed id belongs
      to a model that is gone. */
  lemma EveryRun(src: IdSource, models: seq<Model>, updates: seq<(FetchMode, seq<AvailableModel>)>, id: string)
    ensures var st := Run(src, Initial(src, models), updates);
            && (id in st.findIds <==> Has(src, st.models, id))
            && (id in st.findIds ==> st.findIds[id] < |st.models| && IdOf(src, st.models[st.findIds[id]]) == id)
            && (id in st.ids ==> exists i :: 0 <= i < |st.models| && FormOf(id, IdOf(src, st.models[i])))
  {
    InitialInv(src, models);
    RunKeeps(src, Initial(src, models), updates);
    IndexIsLast(src, Run(src, Initial(src, models), updates).models, id);
  }

  // ----- unique names

  ghost predicate DistinctResponse(available: seq<AvailableModel>) {
    forall i, j :: 0 <= i < j < |available| ==> available[i].name != available[j].name
  }

  lemma {:induction false} WithoutNamesUnique(models: seq<Model>, others: seq<Model>)
    requires UniqueNames(models)
    ensures var r := WithoutNames(models, others);
            && UniqueNames(r)
            && forall m :: m in r ==> m in models && !HasName(others, m.id)
    decreases |models|
  {
    if models == [] {
    } else {
      WithoutNamesUnique(models[1..], others);
      var rest := WithoutNames(models[1..], others);
      forall k | 0 <= k < |rest| ensures rest[k].id != models[0].id {
        assert rest[k] in models[1..];
      }
    }
  }

  lemma UniqueConcat(a: seq<Model>, b: seq<Model>)
    requires UniqueNames(a) && UniqueNames(b)
    requires forall x, y :: x in a && y in b ==> x.id != y.id
    ensures UniqueNames(a + b)
  {}

  lemma UniqueKept(mode: FetchMode, current: seq<Model>, available: seq<AvailableModel>)
    requires UniqueNames(current) && DistinctResponse(available)
    ensures UniqueNames(NewModels(mode, current, ConvertAll(available)))
  {
    var incoming := ConvertAll(available);
    WithoutNamesUnique(current, incoming);
    WithoutNamesUnique(incoming, current);
    if mode == AppendTruncate {
      forall x, y | x in WithoutNames(current, incoming) && y in incoming ensures x.id != y.id {
        var i :| 0 <= i < |incoming| && incoming[i] == y;
        assert IdOf(ById, incoming[i]) == y.id;
      }
      UniqueConcat(WithoutNames(current, incoming), incoming);
    } else if mode == Append {
      forall x, y | x in current && y in WithoutNames(incoming, current) ensures x.id != y.id {
        var i :| 0 <= i < |current| && current[i] == x;
        assert IdOf(ById, current[i]) == x.id;
      }
      UniqueConcat(current, WithoutNames(incoming, current));
    }
  }

  /** No two models share a name, ever, if no response repeats one. */
  lemma {:induction false} UniqueForever(src: IdSource, st: Models, updates: seq<(FetchMode, seq<AvailableModel>)>)
    requires UniqueNames(st.models) && forall u :: u in updates ==> DistinctResponse(u.1)
    ensures UniqueNames(Run(src, st, updates).models)
    decreases |updates|
  {
    if updates == [] {
    } else {
      var (mode, available) := updates[0];
      assert DistinctResponse(updates[0].1);
      UniqueKept(mode, st.models, available);
      var r := Step(src, mode, st, available);
      UniqueForever(src, if r.Ok? then r.value else st, updates[1..]);
    }
  }

  // ----- the global instance

  class Store {
    const src: IdSource
    var models: seq<Model>
    var raw: Option<seq<AvailableModel>>
    var ids: seq<string>
    var findIds: map<string, nat>

    ghost function View(): Models
      reads this
    {
      Models(models, raw, ids, findIds)
    }

    ghost predicate Valid()
      reads this
    {
      Inv(src, View())
    }

    constructor (source: IdSource, table: seq<Model>)
      ensures Valid() && src == source && View() == Initial(source, table)
    {
      src, models, raw, findIds := source, table, None, Index(source, table);
      ids := [];
      new;
      for i := 0 to |table|
        invariant models == table && raw == None && findIds == Index(src, table) && src == source
        invariant PushAll(src, ids, table[i..]) == PushAll(src, [], table)
      {
        ids := PushModel(src, ids, table[i]);
      }
      InitialInv(src, table);
    }

    /** `find_id`: the last current model with that id, if there is one. */
    method FindId(id: string) returns (r: Option<Model>)
      requires Valid()
      ensures r.Some? <==> Has(src, models, id)
      ensures r.Some? ==>
                exists i :: 0 <= i < |models| && r.value == models[i] && IdOf(src, models[i]) == id &&
                            forall j :: i < j < |models| ==> IdOf(src, models[j]) != id
    {
      IndexIsLast(src, models, id);
      if id in findIds {
        r := Some(models[findIds[id]]);
      } else {
        r := None;
      }
    }

    /** `update`: a refusal changes nothing, and the lookup table and the list of ids
        stay in step with the models. */
    method Update(mode: FetchMode, available: seq<AvailableModel>) returns (r: Result<(), string>)
      requires Valid()
      modifies this
      ensures Valid()
      ensures r.Err? <==> available == []
      ensures View() == if r.Ok? then Step(src, mode, old(View()), available).value else old(View())
    {
      if available == [] {
        return Err("Models list cannot be empty");
      }
      if raw.Some? && SubsetEqual(raw.value, available) {
        return Ok(());
      }
      RebuildKeeps(src, mode, View(), available);
      var newModels := NewModels(mode, models, ConvertAll(available));
      var toAdd := Missing(src, newModels, models);
      var newIds := DropStale(src, Missing(src, models, newModels), ids);
      ghost var kept := newIds;
      for i := 0 to |toAdd|
        invariant PushAll(src, newIds, toAdd[i..]) == PushAll(src, kept, toAdd)
      {
        newIds := PushModel(src, newIds, toAdd[i]);
      }
      models, raw, ids, findIds := newModels, Some(available), newIds, Index(src, newModels);
      return Ok(());
    }
  }
}
