/**
 * The BCF topics API of lib/api/bcf/projects/topics_api.rb: the helper
 * `topic_representer`, which answers a work package with the GUID it was
 * given, else the GUID stored in its "GUID" custom field, else a freshly
 * generated UUID that it stores; and the two routes built on it.
 *
 * The work packages and their GUID custom values are the state of a
 * `TopicStore`; `SecureRandom.uuid` is an oracle, its k-th answer `uuid(k)`.
 */
module TopicsApi {
  import opened Wrappers
  import opened Timestamps

  /**
   * The columns of a work package the API reads. This is a second view of
   * the record `Bcf.WorkPackage` describes: `typeId` identifies the type
   * whose name `Bcf` reads, and the "GUID" custom value (`customValues` there)
   * is the entry for `id` in the store's `guids` map, absent when nil.
   */
  datatype WorkPackage = WorkPackage(
    id: nat,
    typeId: nat,
    authorMail: string,
    subject: string,
    createdAt: DateTime,
    updatedAt: DateTime)

  /** The hash `topic_representer` returns. */
  datatype Topic = Topic(
    guid: string,
    creationAuthor: string,
    creationDate: DateTime,
    modifiedDate: DateTime,
    title: string)

  /** The per-guid route found no work package: `wp` is nil and `wp.author` raises. */
  datatype ApiError = NoWorkPackage

  /** Where the GUID of a representation comes from. */
  datatype Resolution = Passed(guid: string) | Stored(guid: string) | Allocated(guid: string)

  /** The stored value of a work package's GUID custom field; no entry is nil. */
  function Lookup(guids: map<nat, string>, id: nat): Option<string>
  {
    if id in guids then Some(guids[id]) else None
  }

  /**
   * `value ||= stored` and `unless value`: the passed GUID, else the stored
   * one, else the fresh UUID. Only nil is missing: an empty string is kept.
   */
  function Resolve(passed: Option<string>, stored: Option<string>, newGuid: string): Resolution
  {
    match passed
    case Some(v) => Passed(v)
    case None =>
      match stored
      case Some(v) => Stored(v)
      case None => Allocated(newGuid)
  }

  /** The GUID custom values after a resolution: only an allocation writes one. */
  function AfterResolve(guids: map<nat, string>, id: nat, r: Resolution): map<nat, string>
  {
    if r.Allocated? then guids[id := r.guid] else guids
  }

  /** The hash built for a work package and its GUID. */
  function Record(wp: WorkPackage, guid: string): (t: Topic)
    ensures t.guid == guid && t.title == wp.subject && t.creationAuthor == wp.authorMail
    ensures t.creationDate == wp.createdAt && t.modifiedDate == wp.updatedAt
  {
    Topic(guid, wp.authorMail, wp.createdAt, wp.updatedAt, wp.subject)
  }

  // ---------------------------------------------------------------------
  // Properties of one resolution
  // ---------------------------------------------------------------------

  /**
   * A UUID is generated exactly when no GUID is passed and none is stored;
   * otherwise the passed GUID wins over the stored one, and nothing is written.
   */
  lemma ResolveCases(passed: Option<string>, stored: Option<string>, newGuid: string, guids: map<nat, string>, id: nat)
    ensures var r := Resolve(passed, stored, newGuid);
      && (r.Allocated? <==> passed.None? && stored.None?)
      && (passed.Some? ==> r.guid == passed.value && AfterResolve(guids, id, r) == guids)
      && (passed.None? && stored.Some? ==> r.guid == stored.value && AfterResolve(guids, id, r) == guids)
      && (r.Allocated? ==> r.guid == newGuid && AfterResolve(guids, id, r) == guids[id := newGuid])
  {
  }

  /**
   * Idempotence: once a work package is resolved without a passed GUID, a
   * second resolution returns the same GUID from the store and writes nothing,
   * whatever UUID the generator would give.
   */
  lemma ResolveIdempotent(guids: map<nat, string>, id: nat, uuid1: string, uuid2: string)
    ensures var r1 := Resolve(None, Lookup(guids, id), uuid1);
      var after := AfterResolve(guids, id, r1);
      var r2 := Resolve(None, Lookup(after, id), uuid2);
      r2 == Stored(r1.guid) && AfterResolve(after, id, r2) == after
  {
  }

  /** A resolution changes no other work package's GUID. */
  lemma ResolveIsLocal(guids: map<nat, string>, id: nat, r: Resolution, other: nat)
    requires other != id
    ensures Lookup(AfterResolve(guids, id, r), other) == Lookup(guids, other)
  {
  }

  // ---------------------------------------------------------------------
  // The list route: one representation per work package of the topic type
  // ---------------------------------------------------------------------

  /** `WorkPackage.where(type_id: t)`: the work packages of one type, in the order given. */
  function OfType(wps: seq<WorkPackage>, typeId: nat): (r: seq<WorkPackage>)
    ensures |r| <= |wps|
    ensures forall k :: 0 <= k < |r| ==> r[k].typeId == typeId
    decreases |wps|
  {
    if wps == [] then []
    else if wps[0].typeId == typeId then [wps[0]] + OfType(wps[1..], typeId)
    else OfType(wps[1..], typeId)
  }

  /** A work package is selected exactly when it is listed and has the type. */
  lemma {:induction false} OfTypeMembers(wps: seq<WorkPackage>, typeId: nat)
    ensures forall w :: w in OfType(wps, typeId) <==> w in wps && w.typeId == typeId
    decreases |wps|
  {
    if wps != [] {
      OfTypeMembers(wps[1..], typeId);
      assert forall w :: w in wps <==> w == wps[0] || w in wps[1..];
    }
  }

  /** What listing does: the topics, the GUID custom values afterwards, and how many UUIDs were generated. */
  datatype Listed = Listed(topics: seq<Topic>, guids: map<nat, string>, generated: nat)

  /** `.map(&method(:topic_representer))`: each work package resolved in turn, without a passed GUID. */
  function Listing(wps: seq<WorkPackage>, guids: map<nat, string>, generated: nat, uuid: nat -> string): Listed
    decreases |wps|
  {
    if wps == [] then Listed([], guids, generated)
    else
      var r := Resolve(None, Lookup(guids, wps[0].id), uuid(generated));
      var rest := Listing(wps[1..], AfterResolve(guids, wps[0].id, r),
                          if r.Allocated? then generated + 1 else generated, uuid);
      Listed([Record(wps[0], r.guid)] + rest.topics, rest.guids, rest.generated)
  }

  /** The ids of a list of work packages. */
  function Ids(wps: seq<WorkPackage>): set<nat>
  {
    set k | 0 <= k < |wps| :: wps[k].id
  }

  lemma IdsCons(wps: seq<WorkPackage>)
    requires wps != []
    ensures Ids(wps) == {wps[0].id} + Ids(wps[1..])
  {
    var tail := wps[1..];
    forall id | id in Ids(wps) ensures id in {wps[0].id} + Ids(tail) {
      var k :| 0 <= k < |wps| && wps[k].id == id;
      if k > 0 { assert tail[k - 1] == wps[k]; }
    }
    forall id | id in Ids(tail) ensures id in Ids(wps) {
      var k :| 0 <= k < |tail| && tail[k].id == id;
      assert wps[k + 1] == tail[k];
    }
  }

  /**
   * Listing keeps every GUID that was stored and stores one for each listed
   * work package and for no other.
   */
  lemma {:induction false} ListingKeeps(wps: seq<WorkPackage>, guids: map<nat, string>, generated: nat, uuid: nat -> string)
    ensures var l := Listing(wps, guids, generated, uuid);
      && l.guids.Keys == guids.Keys + Ids(wps)
      && (forall id :: id in guids ==> l.guids[id] == guids[id])
      && l.generated >= generated
    decreases |wps|
  {
    if wps != [] {
      var w := wps[0];
      var r := Resolve(None, Lookup(guids, w.id), uuid(generated));
      ListingKeeps(wps[1..], AfterResolve(guids, w.id, r), if r.Allocated? then generated + 1 else generated, uuid);
      IdsCons(wps);
    }
  }

  /**
   * Listing gives one topic per work package, in order, each carrying the
   * GUID that is stored for that work package afterwards.
   */
  lemma {:induction false} ListingTopics(wps: seq<WorkPackage>, guids: map<nat, string>, generated: nat, uuid: nat -> string)
    ensures var l := Listing(wps, guids, generated, uuid);
      && |l.topics| == |wps|
      && (forall k :: 0 <= k < |wps| ==> wps[k].id in l.guids && l.topics[k] == Record(wps[k], l.guids[wps[k].id]))
    decreases |wps|
  {
    if wps != [] {
      var w := wps[0];
      var r := Resolve(None, Lookup(guids, w.id), uuid(generated));
      var g1 := AfterResolve(guids, w.id, r);
      var n1 := if r.Allocated? then generated + 1 else generated;
      var tail := wps[1..];
      ListingTopics(tail, g1, n1, uuid);
      ListingKeeps(tail, g1, n1, uuid);
      var l := Listing(wps, guids, generated, uuid);
      var rest := Listing(tail, g1, n1, uuid);
      assert l == Listed([Record(w, r.guid)] + rest.topics, rest.guids, rest.generated);
      assert w.id in g1 && g1[w.id] == r.guid;
      forall k | 0 <= k < |wps| ensures wps[k].id in l.guids && l.topics[k] == Record(wps[k], l.guids[wps[k].id]) {
        if k > 0 { assert wps[k] == tail[k - 1]; }
      }
    }
  }

  /** When every work package already has a GUID, listing writes nothing and returns the stored GUIDs. */
  lemma {:induction false} ListingAllStored(wps: seq<WorkPackage>, guids: map<nat, string>, generated: nat, uuid: nat -> string)
    requires forall k :: 0 <= k < |wps| ==> wps[k].id in guids
    ensures var l := Listing(wps, guids, generated, uuid);
      && l.guids == guids && l.generated == generated
      && |l.topics| == |wps|
      && (forall k :: 0 <= k < |wps| ==> l.topics[k] == Record(wps[k], guids[wps[k].id]))
    decreases |wps|
  {
    if wps != [] {
      var tail := wps[1..];
      assert forall k :: 0 <= k < |tail| ==> tail[k] == wps[k + 1];
      ListingAllStored(tail, guids, generated, uuid);
      var l := Listing(wps, guids, generated, uuid);
      forall k | 0 <= k < |wps| ensures l.topics[k] == Record(wps[k], guids[wps[k].id]) {
        if k > 0 { assert wps[k] == tail[k - 1]; }
      }
    }
  }

  /**
   * Listing twice is listing once: the second listing generates no UUID,
   * writes nothing and returns the same topics.
   */
  lemma ListingTwice(wps: seq<WorkPackage>, guids: map<nat, string>, generated: nat, uuid: nat -> string)
    ensures var l := Listing(wps, guids, generated, uuid);
      Listing(wps, l.guids, l.generated, uuid) == l
  {
    var l := Listing(wps, guids, generated, uuid);
    ListingTopics(wps, guids, generated, uuid);
    ListingAllStored(wps, l.guids, l.generated, uuid);
    var l2 := Listing(wps, l.guids, l.generated, uuid);
    assert |l2.topics| == |l.topics|;
    forall k | 0 <= k < |wps| ensures l2.topics[k] == l.topics[k] {
    }
  }

  // ---------------------------------------------------------------------
  // The per-guid route
  // ---------------------------------------------------------------------

  /**
   * `WorkPackage.where(id: <ids whose GUID custom value is guid>).first`: the
   * first such work package in id order, nil when there is none.
   */
  function FindByGuid(wps: seq<WorkPackage>, guids: map<nat, string>, guid: string): (r: Option<nat>)
    ensures r.Some? ==> r.value < |wps| && Lookup(guids, wps[r.value].id) == Some(guid)
    ensures r.Some? ==> forall k :: 0 <= k < r.value ==> Lookup(guids, wps[k].id) != Some(guid)
    ensures r.None? <==> forall k :: 0 <= k < |wps| ==> Lookup(guids, wps[k].id) != Some(guid)
    decreases |wps|
  {
    if wps == [] then None
    else if Lookup(guids, wps[0].id) == Some(guid) then Some(0)
    else
      match FindByGuid(wps[1..], guids, guid)
      case None => None
      case Some(k) => Some(k + 1)
  }

  /** Work packages ordered by id, as the primary key orders them. */
  predicate IdOrdered(wps: seq<WorkPackage>)
  {
    forall j, k :: 0 <= j < k < |wps| ==> wps[j].id < wps[k].id
  }

  /**
   * `.first` without an order means the least primary key: in id order the
   * work package found has the least id of all that carry the GUID.
   */
  lemma FindByGuidLeastId(wps: seq<WorkPackage>, guids: map<nat, string>, guid: string, m: nat)
    requires IdOrdered(wps) && m < |wps| && Lookup(guids, wps[m].id) == Some(guid)
    ensures FindByGuid(wps, guids, guid).Some?
    ensures wps[FindByGuid(wps, guids, guid).value].id <= wps[m].id
  {
  }

  /** Selecting one type keeps the id order. */
  lemma {:induction false} OfTypeOrdered(wps: seq<WorkPackage>, typeId: nat)
    requires IdOrdered(wps)
    ensures IdOrdered(OfType(wps, typeId))
    decreases |wps|
  {
    if wps != [] {
      var tail := wps[1..];
      assert IdOrdered(tail) by {
        forall j, k | 0 <= j < k < |tail| ensures tail[j].id < tail[k].id {
          assert tail[j] == wps[j + 1] && tail[k] == wps[k + 1];
        }
      }
      OfTypeOrdered(tail, typeId);
      OfTypeMembers(tail, typeId);
      var r := OfType(tail, typeId);
      forall k | 0 <= k < |r| ensures wps[0].id < r[k].id {
        assert r[k] in r;
        assert r[k] in tail;
        var m :| 0 <= m < |tail| && tail[m] == r[k];
        assert tail[m] == wps[m + 1];
      }
    }
  }

  /**
   * The work packages, ordered by id, and their GUID custom values. `uuid(k)`
   * is what `SecureRandom.uuid` answers the k-th time; `generated` counts
   * the answers used so far.
   */
  class TopicStore {
    const workPackages: seq<WorkPackage>
    var guids: map<nat, string>
    const uuid: nat -> string
    var generated: nat

    /** The rows are kept in id order; it depends only on the constant rows, so every method keeps it. */
    ghost predicate Valid()
    {
      IdOrdered(workPackages)
    }

    constructor (workPackages: seq<WorkPackage>, guids: map<nat, string>, uuid: nat -> string)
      requires IdOrdered(workPackages)
      ensures Valid()
      ensures this.workPackages == workPackages && this.guids == guids && this.uuid == uuid && generated == 0
    {
      this.workPackages := workPackages;
      this.guids := guids;
      this.uuid := uuid;
      generated := 0;
    }

    /**
     * `topic_representer(wp, value)`: the passed GUID, else the stored one,
     * else a fresh UUID written to the work package's GUID field and saved;
     * then the topic hash with that GUID.
     */
    method TopicRepresenter(wp: WorkPackage, value: Option<string>) returns (topic: Topic)
      modifies this`guids, this`generated
      ensures var r := Resolve(value, Lookup(old(guids), wp.id), uuid(old(generated)));
        && topic == Record(wp, r.guid)
        && guids == AfterResolve(old(guids), wp.id, r)
        && generated == if r.Allocated? then old(generated) + 1 else old(generated)
    {
      var v := value;
      if v.None? {
        v := if wp.id in guids then Some(guids[wp.id]) else None;
      }
      if v.None? {
        var newGuid := uuid(generated);
        generated := generated + 1;
        guids := guids[wp.id := newGuid];
        v := Some(newGuid);
      }
      topic := Record(wp, v.value);
    }

    /** `get` on `topics`: every work package of the topic type represented, in id order. */
    method ListTopics(topicType: nat) returns (topics: seq<Topic>)
      modifies this`guids, this`generated
      ensures Listing(OfType(workPackages, topicType), old(guids), old(generated), uuid)
        == Listed(topics, guids, generated)
    {
      var wps := OfType(workPackages, topicType);
      var rest := wps;
      topics := [];
      while rest != []
        invariant var l := Listing(rest, guids, generated, uuid);
          Listing(wps, old(guids), old(generated), uuid) == Listed(topics + l.topics, l.guids, l.generated)
        decreases |rest|
      {
        ghost var r := Resolve(None, Lookup(guids, rest[0].id), uuid(generated));
        ghost var l := Listing(rest[1..], AfterResolve(guids, rest[0].id, r),
                               if r.Allocated? then generated + 1 else generated, uuid);
        var topic := TopicRepresenter(rest[0], None);
        assert topics + ([topic] + l.topics) == (topics + [topic]) + l.topics;
        topics := topics + [topic];
        rest := rest[1..];
      }
    }

    /**
     * `get` on `topics/:guid`: the first work package whose GUID is `guid`,
     * represented with that GUID; nothing is written. Without one, `wp` is nil
     * and the route fails.
     */
    method ShowTopic(guid: string) returns (r: Result<Topic, ApiError>)
      requires Valid()
      modifies this`guids, this`generated
      ensures guids == old(guids) && generated == old(generated)
      ensures match FindByGuid(workPackages, old(guids), guid)
        case None => r == Failure(NoWorkPackage)
        case Some(k) =>
          && r == Success(Record(workPackages[k], guid))
          && forall m :: 0 <= m < |workPackages| && Lookup(old(guids), workPackages[m].id) == Some(guid)
               ==> workPackages[k].id <= workPackages[m].id
    {
      var k := FindByGuid(workPackages, guids, guid);
      if k.None? {
        return Failure(NoWorkPackage);
      }
      forall m | 0 <= m < |workPackages| && Lookup(guids, workPackages[m].id) == Some(guid)
        ensures workPackages[k.value].id <= workPackages[m].id
      {
        FindByGuidLeastId(workPackages, guids, guid, m);
      }
      var topic := TopicRepresenter(workPackages[k.value], Some(guid));
      return Success(topic);
    }
  }

  /**
   * The list route answers exactly one topic per work package of the topic
   * type, in id order, each with the GUID stored for it afterwards; a second
   * call answers the same and generates nothing.
   */
  lemma ListTopicsFacts(wps: seq<WorkPackage>, topicType: nat, guids: map<nat, string>, generated: nat,
                        uuid: nat -> string)
    requires IdOrdered(wps)
    ensures var sel := OfType(wps, topicType);
      var l := Listing(sel, guids, generated, uuid);
      && IdOrdered(sel)
      && |l.topics| == |sel|
      && (forall k :: 0 <= k < |sel| ==> sel[k].id in l.guids && l.topics[k] == Record(sel[k], l.guids[sel[k].id]))
      && (forall id :: id in guids ==> id in l.guids && l.guids[id] == guids[id])
      && Listing(sel, l.guids, l.generated, uuid) == l
  {
    var sel := OfType(wps, topicType);
    OfTypeOrdered(wps, topicType);
    ListingTopics(sel, guids, generated, uuid);
    ListingKeeps(sel, guids, generated, uuid);
    ListingTwice(sel, guids, generated, uuid);
  }
}
