// The geofence double index (gps/geofence/GeofenceAdapter.cpp): objects by hardware id, and
// hardware ids by client key, kept in step with an engine that answers later.
//
// The engine answers requests in the order they were made and success only for ids it holds; its
// restart loses ids and unanswered requests alike.
module GeofenceModel {
  datatype Key = Key(client: int, id: int)

  type HwId = nat

  datatype Object = Object(key: Key, options: int, paused: bool)

  datatype Index = Index(objects: map<HwId, Object>, ids: map<Key, HwId>)

  // Requests to the engine, with what the adapter does when each succeeds; KeepPaused pauses a fence that
  // was paused before an engine restart, and nothing is done when it succeeds
  datatype Request =
    | AddFence(key: Key, options: int, paused: bool)
    | RemoveFence(hwId: HwId)
    | DropFence(hwId: HwId)
    | PauseFence(hwId: HwId)
    | ResumeFence(hwId: HwId)
    | ModifyFence(hwId: HwId, options: int)
    | KeepPaused(hwId: HwId)

  // ----- Index updates -----

  function SaveItem(x: Index, key: Key, hwId: HwId, options: int): Index {
    Index(x.objects[hwId := Object(key, options, false)], x.ids[key := hwId])
  }

  // The object goes only together with its key's entry
  function RemoveItem(x: Index, hwId: HwId): Index {
    if hwId in x.objects && x.objects[hwId].key in x.ids
    then Index(x.objects - {hwId}, x.ids - {x.objects[hwId].key})
    else x
  }

  function DropItem(x: Index, hwId: HwId): Index {
    x.(objects := x.objects - {hwId})
  }

  function PauseItem(x: Index, hwId: HwId, paused: bool): Index {
    if hwId in x.objects then x.(objects := x.objects[hwId := x.objects[hwId].(paused := paused)]) else x
  }

  function ModifyItem(x: Index, hwId: HwId, options: int): Index {
    if hwId in x.objects then x.(objects := x.objects[hwId := x.objects[hwId].(options := options)]) else x
  }

  // What a successful answer does to the index; hwId is the id an addition was given
  function Answered(x: Index, r: Request, hwId: HwId): Index {
    match r
    case AddFence(key, options, _) => SaveItem(x, key, hwId, options)
    case RemoveFence(h) => RemoveItem(x, h)
    case DropFence(h) => DropItem(x, h)
    case PauseFence(h) => PauseItem(x, h, true)
    case ResumeFence(h) => PauseItem(x, h, false)
    case ModifyFence(h, options) => ModifyItem(x, h, options)
    case KeepPaused(_) => x
  }

  // The requests a successful answer leads to
  function FollowUp(r: Request, hwId: HwId): seq<Request> {
    if r.AddFence? && r.paused then [KeepPaused(hwId)] else []
  }

  // ----- Enumerations, standing for the order a map is iterated in -----

  ghost predicate Enumerates<T(!new)>(order: seq<T>, s: set<T>) {
    (forall t :: t in order <==> t in s) && forall i, j :: 0 <= i < j < |order| ==> order[i] != order[j]
  }

  lemma EnumeratesMore<T(!new)>(order: seq<T>, s: set<T>, t: T)
    requires Enumerates(order, s) && t !in s
    ensures Enumerates(order + [t], s + {t})
  {
    var more := order + [t];
    forall i, j | 0 <= i < j < |more|
      ensures more[i] != more[j]
    {
      assert more[i] == order[i] && order[i] in order;
    }
  }

  function KeysOf(x: Index, client: int): set<Key> {
    set k | k in x.ids && k.client == client
  }

  // A client that stops loses its keys at once
  function Stopped(x: Index, client: int): Index {
    x.(ids := x.ids - KeysOf(x, client))
  }

  // A restart of the engine leaves nothing listed
  function Restarted(x: Index): Index {
    if x.objects == map[] then x else Index(map[], map[])
  }

  function Drops(x: Index, order: seq<Key>): seq<Request>
    requires forall k :: k in order ==> k in x.ids
  {
    seq(|order|, i requires 0 <= i < |order| => DropFence(x.ids[order[i]]))
  }

  lemma DropsMore(x: Index, order: seq<Key>, k: Key)
    requires (forall t :: t in order ==> t in x.ids) && k in x.ids
    ensures Drops(x, order + [k]) == Drops(x, order) + [DropFence(x.ids[k])]
  {
  }

  function ReAdd(o: Object): Request {
    AddFence(o.key, o.options, o.paused)
  }

  function ReAdds(x: Index, order: seq<HwId>): seq<Request>
    requires forall h :: h in order ==> h in x.objects
  {
    seq(|order|, i requires 0 <= i < |order| => ReAdd(x.objects[order[i]]))
  }

  lemma ReAddsMore(x: Index, order: seq<HwId>, h: HwId)
    requires (forall t :: t in order ==> t in x.objects) && h in x.objects
    ensures ReAdds(x, order + [h]) == ReAdds(x, order) + [ReAdd(x.objects[h])]
  {
  }

  // ----- Breach reports -----

  // The client's own ids among the reported hardware ids, in report order
  function BreachIds(x: Index, hwIds: seq<HwId>, client: int): seq<int> {
    if hwIds == [] then []
    else
      (if hwIds[0] in x.objects && x.objects[hwIds[0]].key.client == client then [x.objects[hwIds[0]].key.id] else [])
      + BreachIds(x, hwIds[1..], client)
  }

  datatype Notification = Notification(client: int, ids: seq<int>)

  function Breaches(x: Index, hwIds: seq<HwId>, clients: seq<int>): seq<Notification> {
    if clients == [] then []
    else
      var ids := BreachIds(x, hwIds, clients[0]);
      (if ids == [] then [] else [Notification(clients[0], ids)]) + Breaches(x, hwIds, clients[1..])
  }
}

module Geofence {
  import opened Wrappers
  import opened Sequences
  import opened GeofenceModel

  class GeofenceAdapter {
    var mGeofences: map<HwId, Object>
    var mGeofenceIds: map<Key, HwId>

    ghost function View(): Index
      reads this
    {
      Index(mGeofences, mGeofenceIds)
    }

    constructor ()
      ensures View() == Index(map[], map[])
    {
      mGeofences, mGeofenceIds := map[], map[];
    }

    method GetHwIdFromClient(key: Key) returns (hwId: Option<HwId>)
      ensures hwId == if key in mGeofenceIds then Some(mGeofenceIds[key]) else None
    {
      if key in mGeofenceIds {
        return Some(mGeofenceIds[key]);
      }
      return None;
    }

    method GetGeofenceKeyFromHwId(hwId: HwId) returns (key: Option<Key>)
      ensures key == if hwId in mGeofences then Some(mGeofences[hwId].key) else None
    {
      if hwId in mGeofences {
        return Some(mGeofences[hwId].key);
      }
      return None;
    }

    method SaveGeofenceItem(key: Key, hwId: HwId, options: int)
      modifies this
      ensures View() == SaveItem(old(View()), key, hwId, options)
    {
      mGeofences := mGeofences[hwId := Object(key, options, false)];
      mGeofenceIds := mGeofenceIds[key := hwId];
    }

    method RemoveGeofenceItem(hwId: HwId)
      modifies this
      ensures View() == RemoveItem(old(View()), hwId)
    {
      var key := GetGeofenceKeyFromHwId(hwId);
      if key.Some? && key.value in mGeofenceIds {
        mGeofenceIds := mGeofenceIds - {key.value};
        if hwId in mGeofences {
          mGeofences := mGeofences - {hwId};
        }
      }
    }

    // What the response handlers do when the engine reports success
    method HandleResponse(r: Request, hwId: HwId) returns (issued: seq<Request>)
      modifies this
      ensures View() == Answered(old(View()), r, hwId) && issued == FollowUp(r, hwId)
    {
      issued := [];
      match r
      case AddFence(key, options, paused) =>
        if paused {
          issued := [KeepPaused(hwId)];
        }
        SaveGeofenceItem(key, hwId, options);
      case RemoveFence(h) => RemoveGeofenceItem(h);
      case DropFence(h) => mGeofences := mGeofences - {h};
      case PauseFence(h) =>
        if h in mGeofences {
          mGeofences := mGeofences[h := mGeofences[h].(paused := true)];
        }
      case ResumeFence(h) =>
        if h in mGeofences {
          mGeofences := mGeofences[h := mGeofences[h].(paused := false)];
        }
      case ModifyFence(h, options) =>
        if h in mGeofences {
          mGeofences := mGeofences[h := mGeofences[h].(options := options)];
        }
      case KeepPaused(_) =>
    }

    /** Erases a client's keys at once and asks the engine to remove their fences; the objects go
        with the answers. */
    method StopClientSessions(client: int) returns (issued: seq<Request>, ghost order: seq<Key>)
      modifies this`mGeofenceIds
      ensures Enumerates(order, KeysOf(old(View()), client)) && issued == Drops(old(View()), order)
      ensures View() == Stopped(old(View()), client)
    {
      issued, order := [], [];
      ghost var x := View();
      var todo := mGeofenceIds.Keys;
      ghost var gone: set<Key> := {};
      while todo != {}
        invariant todo <= mGeofenceIds.Keys && mGeofenceIds == x.ids - gone
        invariant gone == KeysOf(x, client) - todo
        invariant Enumerates(order, gone) && issued == Drops(x, order)
        decreases todo
      {
        var k :| k in todo;
        todo := todo - {k};
        if client == k.client {
          EnumeratesMore(order, gone, k);
          DropsMore(x, order, k);
          issued := issued + [DropFence(mGeofenceIds[k])];
          mGeofenceIds := mGeofenceIds - {k};
          order, gone := order + [k], gone + {k};
        }
      }
    }

    /** After an engine restart both maps are emptied and every object is added anew. */
    method RestartGeofences() returns (issued: seq<Request>, ghost order: seq<HwId>)
      modifies this
      ensures Enumerates(order, old(mGeofences).Keys) && issued == ReAdds(old(View()), order)
      ensures View() == Restarted(old(View()))
    {
      issued, order := [], [];
      if mGeofences == map[] {
        assert mGeofences.Keys == {};
        return;
      }
      var oldGeofences := mGeofences;
      mGeofences, mGeofenceIds := map[], map[];
      var todo := oldGeofences.Keys;
      ghost var x, done: set<HwId> := old(View()), {};
      while todo != {}
        invariant todo <= oldGeofences.Keys && done == oldGeofences.Keys - todo
        invariant Enumerates(order, done) && issued == ReAdds(x, order)
        invariant View() == Index(map[], map[])
        decreases todo
      {
        var h :| h in todo;
        EnumeratesMore(order, done, h);
        ReAddsMore(x, order, h);
        issued := issued + [ReAdd(oldGeofences[h])];
        todo, order, done := todo - {h}, order + [h], done + {h};
      }
      assert done == oldGeofences.Keys;
    }

    method ClientBreach(hwIds: seq<HwId>, client: int) returns (clientIds: seq<int>)
      ensures clientIds == BreachIds(View(), hwIds, client)
    {
      clientIds := [];
      ghost var rest := hwIds;
      for i := 0 to |hwIds|
        invariant rest == hwIds[i..]
        invariant clientIds + BreachIds(View(), rest, client) == BreachIds(View(), hwIds, client)
      {
        var key := GetGeofenceKeyFromHwId(hwIds[i]);
        if key.Some? {
          if key.value.client == client {
            clientIds := clientIds + [key.value.id];
          }
        }
        rest := rest[1..];
      }
    }

    /** Each listening client is told its own ids, if any; clients is the order of the client map. */
    method GeofenceBreach(hwIds: seq<HwId>, clients: seq<int>) returns (told: seq<Notification>)
      ensures told == Breaches(View(), hwIds, clients)
    {
      told := [];
      ghost var rest := clients;
      for c := 0 to |clients|
        invariant rest == clients[c..]
        invariant told + Breaches(View(), hwIds, rest) == Breaches(View(), hwIds, clients)
      {
        var clientIds := ClientBreach(hwIds, clients[c]);
        BreachHead(View(), hwIds, rest, told);
        if |clientIds| > 0 {
          told := told + [Notification(clients[c], clientIds)];
        }
        rest := rest[1..];
      }
    }
  }

  lemma BreachHead(x: Index, hwIds: seq<HwId>, clients: seq<int>, told: seq<Notification>)
    requires clients != []
    ensures var ids := BreachIds(x, hwIds, clients[0]);
            told + Breaches(x, hwIds, clients) ==
            (if ids == [] then told else told + [Notification(clients[0], ids)]) + Breaches(x, hwIds, clients[1..])
  {
    var ids := BreachIds(x, hwIds, clients[0]);
    Associate(told, [Notification(clients[0], ids)], Breaches(x, hwIds, clients[1..]));
    assert [] + Breaches(x, hwIds, clients[1..]) == Breaches(x, hwIds, clients[1..]);
  }
}
