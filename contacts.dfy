/** Human-to-human contact records and the per-tick contact-tracking rule:
    entering the proximity threshold opens a record, staying in range adds
    this tick's distance to it, and leaving range closes it into the contact
    network, which is keyed by the contact's start tick. */
module Contacts {
  import opened Types

  const CONTACT_NETWORK_PROXIMITY_THRESHOLD: real := 20.0

  datatype ContactRecord = ContactRecord(
    otherId: int,
    otherStatus: HumanStatus,   // the partner's status when the contact started
    startTime: int,
    totalProximity: real,
    endTime: Option<int>)

  /** Ticks from start to end; an error while the contact is still open. */
  function Duration(c: ContactRecord): (r: Result<int>)
    ensures r.Err? <==> c.endTime.None?
    ensures r.Ok? ==> c.startTime + r.value == c.endTime.value
  {
    match c.endTime
    case None => Err(DataError)
    case Some(e) => Ok(e - c.startTime)
  }

  /** Mean distance per tick of contact; an error while the contact is open
      or when it lasted zero ticks. */
  function AverageProximity(c: ContactRecord): (r: Result<real>)
    ensures r.Err? <==> c.endTime.None? || c.endTime.value == c.startTime
    ensures r.Ok? ==> r.value * (c.endTime.value - c.startTime) as real == c.totalProximity
  {
    match Duration(c)
    case Err(e) => Err(e)
    case Ok(d) => if d == 0 then Err(ZeroDivision) else Ok(c.totalProximity / d as real)
  }

  /** What a human observes about one other human in one tick. */
  datatype Sighting = Sighting(otherId: int, otherStatus: HumanStatus, distance: real)

  /** The open contacts (partner id -> record) and the closed network
      (start tick -> record) of one human. */
  datatype ContactState = ContactState(
    active: map<int, ContactRecord>,
    network: map<int, ContactRecord>)

  /** The tracking rule for one sighting at tick `t`. */
  function Track(st: ContactState, s: Sighting, t: int): ContactState
  {
    var id := s.otherId;
    if s.distance <= CONTACT_NETWORK_PROXIMITY_THRESHOLD then
      if id in st.active then
        var c := st.active[id];
        st.(active := st.active[id := c.(totalProximity := c.totalProximity + s.distance)])
      else
        st.(active := st.active[id := ContactRecord(id, s.otherStatus, t, s.distance, None)])
    else if id in st.active then
      var c := st.active[id].(endTime := Some(t));
      ContactState(st.active - {id}, st.network[c.startTime := c])
    else
      st
  }

  /** The sightings of one tick, applied in order. */
  function TrackAll(st: ContactState, ss: seq<Sighting>, t: int): ContactState
  {
    if ss == [] then st else Track(TrackAll(st, ss[..|ss| - 1], t), ss[|ss| - 1], t)
  }

  function Ids(ss: seq<Sighting>): set<int>
  {
    set i | 0 <= i < |ss| :: ss[i].otherId
  }

  predicate DistinctIds(ss: seq<Sighting>)
  {
    forall i, j :: 0 <= i < j < |ss| ==> ss[i].otherId != ss[j].otherId
  }

  /** The shape the tracking keeps at tick `t`: open records are keyed by
      their partner, unterminated and started before `t`; closed records are
      keyed by their start and ended strictly after it; nobody is in contact
      with themself. */
  predicate WellFormed(st: ContactState, selfId: int, t: int)
  {
    && (forall k :: k in st.active ==>
          && st.active[k].otherId == k && k != selfId
          && st.active[k].endTime.None? && st.active[k].startTime < t)
    && (forall k :: k in st.network ==>
          && st.network[k].startTime == k && st.network[k].otherId != selfId
          && st.network[k].endTime.Some? && st.network[k].startTime < st.network[k].endTime.value)
  }

  /** Entering range with no open record opens one at tick `t` holding this
      tick's distance and the partner's current status; nothing else changes. */
  lemma TrackEnters(st: ContactState, s: Sighting, t: int)
    requires s.distance <= CONTACT_NETWORK_PROXIMITY_THRESHOLD && s.otherId !in st.active
    ensures Track(st, s, t).active == st.active[s.otherId := ContactRecord(s.otherId, s.otherStatus, t, s.distance, None)]
    ensures Track(st, s, t).network == st.network
  {
  }

  /** Staying in range changes only the open record's proximity total. */
  lemma TrackStays(st: ContactState, s: Sighting, t: int)
    requires s.distance <= CONTACT_NETWORK_PROXIMITY_THRESHOLD && s.otherId in st.active
    ensures Track(st, s, t).active.Keys == st.active.Keys
    ensures Track(st, s, t).active[s.otherId]
         == st.active[s.otherId].(totalProximity := st.active[s.otherId].totalProximity + s.distance)
    ensures forall k :: k in st.active && k != s.otherId ==> Track(st, s, t).active[k] == st.active[k]
    ensures Track(st, s, t).network == st.network
  {
  }

  /** Leaving range closes the open record at `t` and files it under its
      start tick, replacing whatever was filed there. */
  lemma TrackLeaves(st: ContactState, s: Sighting, t: int)
    requires s.distance > CONTACT_NETWORK_PROXIMITY_THRESHOLD && s.otherId in st.active
    ensures Track(st, s, t).active == st.active - {s.otherId}
    ensures Track(st, s, t).network
         == st.network[st.active[s.otherId].startTime := st.active[s.otherId].(endTime := Some(t))]
  {
  }

  /** Out of range with no open record: nothing happens. */
  lemma TrackIgnores(st: ContactState, s: Sighting, t: int)
    requires s.distance > CONTACT_NETWORK_PROXIMITY_THRESHOLD && s.otherId !in st.active
    ensures Track(st, s, t) == st
  {
  }

  /** One tick of tracking keeps the shape, one tick later; in particular
      every contact it closes lasted at least one tick. The second conclusion
      is the induction's strengthening: records opened this tick belong to
      partners already sighted. */
  lemma {:induction false} TrackAllInvariant(st: ContactState, ss: seq<Sighting>, selfId: int, t: int)
    requires WellFormed(st, selfId, t)
    requires DistinctIds(ss) && selfId !in Ids(ss)
    ensures WellFormed(TrackAll(st, ss, t), selfId, t + 1)
    ensures forall k :: k in TrackAll(st, ss, t).active && TrackAll(st, ss, t).active[k].startTime == t ==> k in Ids(ss)
  {
    if ss != [] {
      var pre := ss[..|ss| - 1];
      var s := ss[|ss| - 1];
      assert Ids(ss) == Ids(pre) + {s.otherId} by {
        forall k | k in Ids(ss) ensures k in Ids(pre) + {s.otherId} {
          var i :| 0 <= i < |ss| && ss[i].otherId == k;
          if i < |pre| { assert pre[i] == ss[i]; }
        }
        forall k | k in Ids(pre) ensures k in Ids(ss) {
          var i :| 0 <= i < |pre| && pre[i].otherId == k;
          assert ss[i] == pre[i];
        }
      }
      assert s.otherId !in Ids(pre);
      TrackAllInvariant(st, pre, selfId, t);
    }
  }

  /** Every closed contact of a well-formed state has a duration of at least
      one tick and a defined average proximity. */
  lemma ClosedContactsHaveAverage(st: ContactState, selfId: int, t: int, k: int)
    requires WellFormed(st, selfId, t) && k in st.network
    ensures Duration(st.network[k]).Ok? && Duration(st.network[k]).value >= 1
    ensures AverageProximity(st.network[k]).Ok?
  {
  }

  /** The sighting of partner `o` in this tick, if any. */
  function SightingOf(ss: seq<Sighting>, o: int): Option<Sighting>
  {
    if ss == [] then None
    else if ss[|ss| - 1].otherId == o then Some(ss[|ss| - 1])
    else SightingOf(ss[..|ss| - 1], o)
  }

  /** Per partner, one tick of tracking does to the open record exactly what
      the single-sighting rule does; a partner not sighted keeps its record. */
  lemma {:induction false} TrackAllActiveOf(st: ContactState, ss: seq<Sighting>, t: int, o: int)
    requires DistinctIds(ss)
    ensures var r := TrackAll(st, ss, t).active;
            var e := if SightingOf(ss, o).Some? then Track(st, SightingOf(ss, o).value, t).active else st.active;
            (o in r <==> o in e) && (o in r ==> r[o] == e[o])
  {
    if ss != [] {
      var pre := ss[..|ss| - 1];
      var s := ss[|ss| - 1];
      TrackAllActiveOf(st, pre, t, o);
      if s.otherId == o {
        SightingOfAbsent(pre, o, ss);
      }
    }
  }

  lemma {:induction false} SightingOfAbsent(pre: seq<Sighting>, o: int, ss: seq<Sighting>)
    requires DistinctIds(ss) && |ss| > 0 && pre == ss[..|ss| - 1] && ss[|ss| - 1].otherId == o
    ensures SightingOf(pre, o).None?
  {
    if pre != [] {
      var pp := pre[..|pre| - 1];
      assert pre[|pre| - 1] == ss[|pre| - 1];
      var ss' := pp + [ss[|ss| - 1]];
      assert ss'[..|ss'| - 1] == pp;
      assert DistinctIds(ss') by {
        forall i, j | 0 <= i < j < |ss'| ensures ss'[i].otherId != ss'[j].otherId {
          if j < |pp| { assert ss'[i] == ss[i] && ss'[j] == ss[j]; }
          else { assert ss'[i] == ss[i] && ss'[j] == ss[|ss| - 1]; }
        }
      }
      SightingOfAbsent(pp, o, ss');
    }
  }

  /** The network only grows within a tick, and every entry it gains is an
      open record of the start of the tick, closed at `t`. */
  lemma {:induction false} TrackAllNetwork(st: ContactState, ss: seq<Sighting>, selfId: int, t: int)
    requires WellFormed(st, selfId, t)
    requires DistinctIds(ss) && selfId !in Ids(ss)
    ensures st.network.Keys <= TrackAll(st, ss, t).network.Keys
    ensures forall k :: k in TrackAll(st, ss, t).network ==>
              var c := TrackAll(st, ss, t).network[k];
              (k in st.network && c == st.network[k])
              || (c.endTime == Some(t) && c.otherId in st.active && st.active[c.otherId] == c.(endTime := None))
  {
    if ss != [] {
      var pre := ss[..|ss| - 1];
      var s := ss[|ss| - 1];
      assert DistinctIds(pre);
      assert Ids(pre) <= Ids(ss) by {
        forall k | k in Ids(pre) ensures k in Ids(ss) {
          var i :| 0 <= i < |pre| && pre[i].otherId == k;
          assert ss[i] == pre[i];
        }
      }
      TrackAllNetwork(st, pre, selfId, t);
      TrackAllInvariant(st, pre, selfId, t);
      TrackAllActiveOf(st, pre, t, s.otherId);
      SightingOfAbsent(pre, s.otherId, ss);
    }
  }

  /** The sightings of one tick: every human of `ids` other than `selfId`, in
      that order, with their current status and their distance from `here`. */
  function See(ids: seq<int>, locations: map<int, Location>, statuses: map<int, HumanStatus>,
               selfId: int, here: Location, sqrt: real -> real): seq<Sighting>
    requires forall i :: 0 <= i < |ids| ==> ids[i] in locations && ids[i] in statuses
  {
    if ids == [] then []
    else
      var pre := See(ids[..|ids| - 1], locations, statuses, selfId, here, sqrt);
      var k := ids[|ids| - 1];
      if k == selfId then pre
      else pre + [Sighting(k, statuses[k], Distance(sqrt, here, locations[k]))]
  }

  /** Over distinct ids, a tick sights every other human exactly once, each
      with its own status and distance, and never the observer. */
  lemma {:induction false} SeeShape(ids: seq<int>, locations: map<int, Location>, statuses: map<int, HumanStatus>,
                                    selfId: int, here: Location, sqrt: real -> real)
    requires forall i :: 0 <= i < |ids| ==> ids[i] in locations && ids[i] in statuses
    requires forall i, j :: 0 <= i < j < |ids| ==> ids[i] != ids[j]
    ensures var ss := See(ids, locations, statuses, selfId, here, sqrt);
            && DistinctIds(ss)
            && (forall k :: k in Ids(ss) <==> k in ids && k != selfId)
            && (forall i :: 0 <= i < |ss| ==>
                  ss[i].otherId in locations && ss[i].otherId in statuses &&
                  ss[i] == Sighting(ss[i].otherId, statuses[ss[i].otherId], Distance(sqrt, here, locations[ss[i].otherId])))
  {
    if ids != [] {
      var front := ids[..|ids| - 1];
      var k := ids[|ids| - 1];
      SeeShape(front, locations, statuses, selfId, here, sqrt);
      var pre := See(front, locations, statuses, selfId, here, sqrt);
      var ss := See(ids, locations, statuses, selfId, here, sqrt);
      assert forall x :: x in ids <==> x in front || x == k;
      assert k !in front;
      if k != selfId {
        assert ss == pre + [Sighting(k, statuses[k], Distance(sqrt, here, locations[k]))];
        assert forall x :: x in Ids(ss) <==> x in Ids(pre) || x == k by {
          forall x ensures x in Ids(ss) <==> x in Ids(pre) || x == k {
            if x in Ids(pre) {
              var i :| 0 <= i < |pre| && pre[i].otherId == x;
              assert ss[i] == pre[i];
            }
            if x in Ids(ss) && x != k {
              var i :| 0 <= i < |ss| && ss[i].otherId == x;
              assert pre[i] == ss[i];
            }
            if x == k {
              assert ss[|pre|].otherId == k;
            }
          }
        }
      }
    }
  }

  /** Open records are keyed by their partner, and nobody is in contact with
      themself. */
  predicate SelfFree(st: ContactState, selfId: int)
  {
    && (forall k :: k in st.active ==> st.active[k].otherId == k && k != selfId)
    && (forall k :: k in st.network ==> st.network[k].otherId != selfId)
  }

  /** Every partner, open or closed, is one of `known`. */
  predicate PartnersWithin(st: ContactState, known: set<int>)
  {
    && st.active.Keys <= known
    && (forall k :: k in st.network ==> st.network[k].otherId in known)
  }

  /** Tracking sightings of known humans other than the observer keeps both
      properties, whatever the tick. */
  lemma {:induction false} TrackAllWithin(st: ContactState, ss: seq<Sighting>, t: int, selfId: int, known: set<int>)
    requires SelfFree(st, selfId) && PartnersWithin(st, known)
    requires selfId !in Ids(ss) && Ids(ss) <= known
    ensures SelfFree(TrackAll(st, ss, t), selfId)
    ensures PartnersWithin(TrackAll(st, ss, t), known)
  {
    if ss != [] {
      var pre := ss[..|ss| - 1];
      assert Ids(pre) <= Ids(ss) by {
        forall k | k in Ids(pre) ensures k in Ids(ss) {
          var i :| 0 <= i < |pre| && pre[i].otherId == k;
          assert ss[i] == pre[i];
        }
      }
      TrackAllWithin(st, pre, t, selfId, known);
      assert ss[|ss| - 1].otherId in Ids(ss);
    }
  }

  // ---------------------------------------------------------------- symmetry

  /** The open halves of a contact between `a` and `b` agree: each holds an
      open record of the other exactly when the other does, and then both
      records started on the same tick. */
  predicate OpenAgree(stA: ContactState, a: int, stB: ContactState, b: int)
  {
    && (b in stA.active <==> a in stB.active)
    && (b in stA.active ==> stA.active[b].startTime == stB.active[a].startTime)
  }

  /** A mutual sighting at one distance keeps the open halves in agreement,
      and a contact that ends is closed by both sides at `t` under the same
      start tick. */
  lemma TrackSymmetric(stA: ContactState, a: int, sA: Sighting, stB: ContactState, b: int, sB: Sighting, t: int)
    requires sA.otherId == b && sB.otherId == a && sA.distance == sB.distance
    requires OpenAgree(stA, a, stB, b)
    ensures OpenAgree(Track(stA, sA, t), a, Track(stB, sB, t), b)
    ensures b !in stA.active && sA.distance <= CONTACT_NETWORK_PROXIMITY_THRESHOLD ==>
              Track(stA, sA, t).active[b].startTime == t
    ensures b in stA.active && sA.distance > CONTACT_NETWORK_PROXIMITY_THRESHOLD ==>
              var k := stA.active[b].startTime;
              && Track(stA, sA, t).network[k] == stA.active[b].(endTime := Some(t))
              && Track(stB, sB, t).network[k] == stB.active[a].(endTime := Some(t))
  {
  }

  /** The sighting `SightingOf` finds for a sighted partner is one of the
      tick's sightings, of that partner. */
  lemma {:induction false} SightingOfFound(ss: seq<Sighting>, o: int)
    requires o in Ids(ss)
    ensures SightingOf(ss, o).Some? && SightingOf(ss, o).value.otherId == o
    ensures exists i :: 0 <= i < |ss| && ss[i] == SightingOf(ss, o).value
  {
    var pre := ss[..|ss| - 1];
    if ss[|ss| - 1].otherId != o {
      var i :| 0 <= i < |ss| && ss[i].otherId == o;
      assert i < |pre| && pre[i] == ss[i];
      SightingOfFound(pre, o);
      var j :| 0 <= j < |pre| && pre[j] == SightingOf(pre, o).value;
      assert ss[j] == pre[j];
    }
  }

  /** Contact symmetry for open contacts: when two humans of the table start
      a tick with agreeing open halves, they end it so. Each sees the other at
      the same distance, so both stay in contact, both open one at this tick,
      or both close it. */
  lemma TickSymmetric(ids: seq<int>, locations: map<int, Location>, statuses: map<int, HumanStatus>,
                      a: int, b: int, stA: ContactState, stB: ContactState, t: int, sqrt: real -> real)
    requires forall i :: 0 <= i < |ids| ==> ids[i] in locations && ids[i] in statuses
    requires forall i, j :: 0 <= i < j < |ids| ==> ids[i] != ids[j]
    requires a in ids && b in ids && a != b
    requires OpenAgree(stA, a, stB, b)
    ensures OpenAgree(TrackAll(stA, See(ids, locations, statuses, a, locations[a], sqrt), t), a,
                      TrackAll(stB, See(ids, locations, statuses, b, locations[b], sqrt), t), b)
  {
    var ssA := See(ids, locations, statuses, a, locations[a], sqrt);
    var ssB := See(ids, locations, statuses, b, locations[b], sqrt);
    SeeShape(ids, locations, statuses, a, locations[a], sqrt);
    SeeShape(ids, locations, statuses, b, locations[b], sqrt);
    SightingOfFound(ssA, b);
    SightingOfFound(ssB, a);
    var sA := SightingOf(ssA, b).value;
    var sB := SightingOf(ssB, a).value;
    DistanceSymmetric(sqrt, locations[a], locations[b]);
    assert sA.distance == sB.distance;
    TrackSymmetric(stA, a, sA, stB, b, sB, t);
    TrackAllActiveOf(stA, ssA, t, b);
    TrackAllActiveOf(stB, ssB, t, a);
  }

  /** The closed halves need not agree, because of the start-tick key. Human
      0 has open contacts with humans 1 and 2, both started at tick 3; human 1
      has the matching open contact with 0. All separate at tick 5: 0's
      network then holds no contact with 1 (the one with 2 overwrote it),
      while 1's network holds its contact with 0. */
  lemma NetworkAsymmetry()
    ensures var stA := ContactState(map[1 := ContactRecord(1, Healthy, 3, 5.0, None),
                                        2 := ContactRecord(2, Healthy, 3, 7.0, None)], map[]);
            var stB := ContactState(map[0 := ContactRecord(0, Healthy, 3, 5.0, None)], map[]);
            var rA := TrackAll(stA, [Sighting(1, Healthy, 30.0), Sighting(2, Healthy, 40.0)], 5);
            var rB := TrackAll(stB, [Sighting(0, Healthy, 30.0), Sighting(2, Healthy, 45.0)], 5);
            && OpenAgree(stA, 0, stB, 1) && OpenAgree(rA, 0, rB, 1)
            && (forall k :: k in rA.network ==> rA.network[k].otherId != 1)
            && 3 in rB.network && rB.network[3].otherId == 0
  {
    NetworkKeyCollision();
    var cB := ContactRecord(0, Healthy, 3, 5.0, None);
    var stB := ContactState(map[0 := cB], map[]);
    var ss := [Sighting(0, Healthy, 30.0), Sighting(2, Healthy, 45.0)];
    assert ss[..1] == [Sighting(0, Healthy, 30.0)];
    assert ss[..1][..0] == [];
    assert map[0 := cB] - {0} == map[];
    var mid := ContactState(map[], map[3 := cB.(endTime := Some(5))]);
    assert TrackAll(stB, ss[..1], 5) == mid;
    assert TrackAll(stB, ss, 5) == Track(mid, ss[1], 5);
  }

  /** Two contacts that start on the same tick and end on the same tick
      collide in the network: only the one closed last is kept. */
  lemma NetworkKeyCollision()
    ensures var c1 := ContactRecord(1, Healthy, 3, 5.0, None);
            var c2 := ContactRecord(2, Healthy, 3, 7.0, None);
            var st := ContactState(map[1 := c1, 2 := c2], map[]);
            var r := TrackAll(st, [Sighting(1, Healthy, 30.0), Sighting(2, Healthy, 40.0)], 5);
            r.active == map[] && r.network == map[3 := c2.(endTime := Some(5))]
  {
    var c1 := ContactRecord(1, Healthy, 3, 5.0, None);
    var c2 := ContactRecord(2, Healthy, 3, 7.0, None);
    var st := ContactState(map[1 := c1, 2 := c2], map[]);
    var ss := [Sighting(1, Healthy, 30.0), Sighting(2, Healthy, 40.0)];
    assert ss[..1] == [Sighting(1, Healthy, 30.0)];
    assert ss[..1][..0] == [];
    assert TrackAll(st, ss[..1], 5) == Track(st, ss[0], 5);
    var mid := ContactState(map[2 := c2], map[3 := c1.(endTime := Some(5))]);
    assert map[1 := c1, 2 := c2] - {1} == map[2 := c2];
    assert Track(st, ss[0], 5) == mid;
    assert map[2 := c2] - {2} == map[];
    assert TrackAll(st, ss, 5) == Track(mid, ss[1], 5);
  }
}
