/** What a lookup returns after an update, in terms of the server's response, and the
    order in which models and ids are listed. */
module ModelLookup {
  import opened Wrappers
  import opened Sequences
  import opened ModelIndex
  import opened ModelListing

  /** The name by which an entry of the response is addressed; the client and server
      names default to the entry's own name. */
  function PublicName(src: IdSource, a: AvailableModel): string {
    match src
    case ById => a.name
    case ByClientId => (match a.clientName case Some(name) => name case None => a.name)
    case ByServerId => (match a.serverName case Some(name) => name case None => a.name)
  }

  /** The model that stands for an entry of the response. */
  ghost predicate Represents(m: Model, a: AvailableModel) {
    && m.id == PublicName(ById, a)
    && m.clientId == PublicName(ByClientId, a)
    && m.serverId == PublicName(ByServerId, a)
    && (m.isThinking <==> a.thinking == Some(true))
    && (m.isImage <==> a.images == Some(true) || PublicName(ByServerId, a) == "default")
    && (m.isMax <==> a.maxMode == Some(true))
    && (m.isNonMax <==> a.nonMaxMode == Some(true))
  }

  lemma ConvertRepresents(a: AvailableModel, m: Model)
    ensures m == Convert(a) <==> Represents(m, a)
  {}

  lemma IdOfConverted(src: IdSource, a: AvailableModel)
    ensures IdOf(src, Convert(a)) == PublicName(src, a)
  {}

  // ----- the models after an update

  /** What each mode makes of the current models and the response. */
  lemma ModesExactly(mode: FetchMode, current: seq<Model>, incoming: seq<Model>, m: Model)
    ensures var r := NewModels(mode, current, incoming);
            match mode
            case Truncate => r == incoming
            case AppendTruncate =>
              var n := |r| - |incoming|;
              n >= 0 && r[n..] == incoming && (m in r[..n] <==> m in current && !HasName(incoming, m.id))
            case Append =>
              current <= r && (m in r[|current|..] <==> m in incoming && !HasName(current, m.id))
  {
    match mode
    case Truncate =>
    case AppendTruncate =>
      WithoutNamesMember(current, incoming, m);
      var kept := WithoutNames(current, incoming);
      assert (kept + incoming)[..|kept|] == kept && (kept + incoming)[|kept|..] == incoming;
    case Append =>
      WithoutNamesMember(incoming, current, m);
      assert (current + WithoutNames(incoming, current))[|current|..] == WithoutNames(incoming, current);
  }

  /** `small` can be had from `big` by leaving elements out. */
  predicate Within<T(==)>(small: seq<T>, big: seq<T>)
    decreases |big|
  {
    small == [] ||
    (big != [] && if small[0] == big[0] then Within(small[1..], big[1..]) else Within(small, big[1..]))
  }

  lemma {:induction false} WithinTail<T>(small: seq<T>, big: seq<T>)
    requires small != [] && Within(small, big)
    ensures Within(small[1..], big)
    decreases |big|, 1
  {
    if small[0] == big[0] {
      WithinSkip(small[1..], big);
    } else {
      WithinTail(small, big[1..]);
      WithinSkip(small[1..], big);
    }
  }

  lemma {:induction false} WithinSkip<T>(small: seq<T>, big: seq<T>)
    requires big != [] && Within(small, big[1..])
    ensures Within(small, big)
    decreases |big|, 0
  {
    if small == [] {
    } else if small[0] == big[0] {
      WithinTail(small, big[1..]);
    }
  }

  /** The models that are kept stay in order. */
  lemma {:induction false} KeptInOrder(models: seq<Model>, others: seq<Model>)
    ensures Within(WithoutNames(models, others), models)
    decreases |models|
  {
    if models == [] {
    } else {
      KeptInOrder(models[1..], others);
      if HasName(others, models[0].id) {
        WithinSkip(WithoutNames(models[1..], others), models);
      } else {
        assert WithoutNames(models, others)[1..] == WithoutNames(models[1..], others);
      }
    }
  }

  lemma LastFound(src: IdSource, models: seq<Model>, at: nat)
    requires at < |models| && forall j :: at < j < |models| ==> IdOf(src, models[j]) != IdOf(src, models[at])
    ensures var id := IdOf(src, models[at]); id in Index(src, models) && Index(src, models)[id] == at
  {
    var id := IdOf(src, models[at]);
    assert Has(src, models, id);
    IndexIsLast(src, models, id);
  }

  lemma TailOf(mode: FetchMode, current: seq<Model>, incoming: seq<Model>) returns (n: nat)
    requires mode != Append
    ensures var r := NewModels(mode, current, incoming); n + |incoming| == |r| && r[n..] == incoming
  {
    var r := NewModels(mode, current, incoming);
    n := |r| - |incoming|;
    if mode == AppendTruncate {
      var kept := WithoutNames(current, incoming);
      assert (kept + incoming)[|kept|..] == incoming;
    }
  }

  lemma {:induction false} EntryAt(src: IdSource, models: seq<Model>, n: nat, available: seq<AvailableModel>, j: nat)
    requires n + |available| == |models| && models[n..] == ConvertAll(available) && j < |available|
    ensures models[n + j] == Convert(available[j]) && IdOf(src, models[n + j]) == PublicName(src, available[j])
  {
    assert models[n..][j] == ConvertAll(available)[j];
    IdOfConverted(src, available[j]);
  }

  lemma {:induction false} LaterEntry(src: IdSource, models: seq<Model>, n: nat, available: seq<AvailableModel>, j: nat, id: string)
    requires n + |available| == |models| && models[n..] == ConvertAll(available) && n <= j < |models|
    requires PublicName(src, available[j - n]) != id
    ensures IdOf(src, models[j]) != id
  {
    EntryAt(src, models, n, available, j - n);
  }

  /** Unless responses are only appended, an entry is found under its public name, with
      the names and capabilities of the response, if no later entry has that name. */
  lemma EntryIsFound(src: IdSource, mode: FetchMode, st: Models, available: seq<AvailableModel>, k: nat)
    requires mode != Append && k < |available|
    requires forall j :: k < j < |available| ==> PublicName(src, available[j]) != PublicName(src, available[k])
    ensures var after, id := Rebuild(src, mode, st, available), PublicName(src, available[k]);
            id in after.findIds && after.findIds[id] < |after.models| &&
            Represents(after.models[after.findIds[id]], available[k])
  {
    var incoming := ConvertAll(available);
    var models := NewModels(mode, st.models, incoming);
    var n := TailOf(mode, st.models, incoming);
    EntryAt(src, models, n, available, k);
    var id := PublicName(src, available[k]);
    forall j | n + k < j < |models| ensures IdOf(src, models[j]) != id {
      LaterEntry(src, models, n, available, j, id);
    }
    LastFound(src, models, n + k);
    ConvertRepresents(available[k], models[n + k]);
  }

  /** When responses are only appended, a current model keeps its place and the table
      still leads to it, unless an entry with another name takes its public name. */
  lemma AppendKeeps(src: IdSource, st: Models, available: seq<AvailableModel>, at: nat)
    requires at < |st.models|
    requires forall j :: at < j < |st.models| ==> IdOf(src, st.models[j]) != IdOf(src, st.models[at])
    requires forall a :: a in available ==> PublicName(src, a) != IdOf(src, st.models[at]) || HasName(st.models, a.name)
    ensures var after, id := Rebuild(src, Append, st, available), IdOf(src, st.models[at]);
            id in after.findIds && after.findIds[id] == at && after.models[at] == st.models[at]
  {
    var incoming := ConvertAll(available);
    var added := WithoutNames(incoming, st.models);
    var models := st.models + added;
    forall j | at < j < |models| ensures IdOf(src, models[j]) != IdOf(src, models[at]) {
      if j >= |st.models| {
        AddedComesFrom(src, st.models, available, models[j]);
      }
    }
    LastFound(src, models, at);
  }

  lemma AddedComesFrom(src: IdSource, current: seq<Model>, available: seq<AvailableModel>, m: Model)
    requires m in WithoutNames(ConvertAll(available), current)
    ensures exists a :: a in available && PublicName(src, a) == IdOf(src, m) && !HasName(current, a.name)
  {
    var incoming := ConvertAll(available);
    WithoutNamesMember(incoming, current, m);
    var i :| 0 <= i < |incoming| && incoming[i] == m;
    IdOfConverted(src, available[i]);
    assert available[i] in available && !HasName(current, available[i].name);
  }

  // ----- the order of the ids

  /** The forms of one id, as they are listed. */
  function Forms(id: string, max: bool): seq<string> {
    [id, id + "-online"] + if max then [id + "-max", id + "-max-online"] else []
  }

  function FormsOfAll(src: IdSource, models: seq<Model>): seq<string> {
    if models == [] then []
    else Forms(IdOf(src, models[0]), models[0].isMax && models[0].isNonMax) + FormsOfAll(src, models[1..])
  }

  lemma PushedForms(src: IdSource, ids: seq<string>, m: Model)
    ensures PushModel(src, ids, m) == ids + Forms(IdOf(src, m), m.isMax && m.isNonMax)
  {
    var id := IdOf(src, m);
    assert id + MAX + ONLINE == id + "-max-online";
  }

  /** Arriving models are listed after the ids already there, in order, each with its
      forms in order; a model with both modes also with its max forms. */
  lemma {:induction false} ListedInOrder(src: IdSource, ids: seq<string>, added: seq<Model>)
    ensures PushAll(src, ids, added) == ids + FormsOfAll(src, added)
    decreases |added|
  {
    if added == [] {
    } else {
      var forms := Forms(IdOf(src, added[0]), added[0].isMax && added[0].isNonMax);
      PushedForms(src, ids, added[0]);
      ListedInOrder(src, ids + forms, added[1..]);
      Assoc(ids, forms, FormsOfAll(src, added[1..]));
    }
  }

  /** The ids that stay are in the order they were in. */
  lemma {:induction false} StayingInOrder(src: IdSource, removed: seq<Model>, ids: seq<string>)
    ensures Within(DropStale(src, removed, ids), ids)
    decreases |ids|
  {
    if ids == [] {
    } else {
      StayingInOrder(src, removed, ids[1..]);
      if Stale(src, removed, ids[0]) {
        WithinSkip(DropStale(src, removed, ids[1..]), ids);
      } else {
        assert DropStale(src, removed, ids)[1..] == DropStale(src, removed, ids[1..]);
      }
    }
  }

  /** The forms of an id, letter by letter. */
  lemma FormsSpelled(id: string, mid: string)
    ensures FormOf(id, mid) <==> id == mid || id == mid + "-online" || id == mid + "-max" || id == mid + "-max-online"
  {
    assert mid + MAX + ONLINE == mid + "-max-online";
  }
}
