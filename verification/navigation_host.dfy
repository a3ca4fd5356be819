/** The navigation host: it shows the entry stored under the current id and
    keeps each entry's saved UI state (here, the click counter the host's
    tests keep in every entry) for as long as the entry's id stays in the
    entry map. */
module NavigationHost {
  import opened Wrappers
  import opened Decimal

  /** An entry id (a UUID in the program). */
  type Id = nat

  datatype Host = Host(entryMap: map<Id, string>, currentEntryId: Id, saved: map<Id, nat>)

  /** The saved state lives only for ids in the entry map. */
  predicate Valid(h: Host) {
    h.saved.Keys <= h.entryMap.Keys
  }

  /** The counter of an entry: its saved value, or the initial 0. */
  function Count(h: Host, id: Id): nat {
    if id in h.saved then h.saved[id] else 0
  }

  /** What is on screen: the current entry's value, id and counter, when the
      current id names an entry. */
  datatype Shown = Shown(value: string, id: Id, count: nat)

  function Displayed(h: Host): (r: Option<Shown>)
    ensures r.Some? <==> h.currentEntryId in h.entryMap
    ensures r.Some? ==> r.value.value == h.entryMap[h.currentEntryId] && r.value.id == h.currentEntryId
  {
    if h.currentEntryId in h.entryMap then
      Some(Shown(h.entryMap[h.currentEntryId], h.currentEntryId, Count(h, h.currentEntryId)))
    else None
  }

  datatype Event =
    | Click
    | SetCurrent(id: Id)
    | Remove(id: Id)
    | Put(id: Id, value: string)
    | SaveAndRestore

  /** Forgets the saved state of every id no longer in the entry map. */
  function Prune(h: Host): (r: Host)
    ensures Valid(r)
    ensures r.entryMap == h.entryMap && r.currentEntryId == h.currentEntryId
    ensures forall id :: id in h.entryMap ==> Count(r, id) == Count(h, id)
    ensures forall id :: id !in h.entryMap ==> Count(r, id) == 0
  {
    h.(saved := map id | id in h.saved && id in h.entryMap :: h.saved[id])
  }

  /** A click bumps the shown entry's counter; the map and current id change
      as told; saving and restoring the instance state keeps everything. */
  function Step(h: Host, e: Event): (r: Host)
    ensures Valid(r)
    ensures e.Click? && h.currentEntryId in h.entryMap ==>
      Count(r, h.currentEntryId) == Count(h, h.currentEntryId) + 1
    ensures forall id :: id in r.entryMap && id in h.entryMap && !(e.Click? && id == h.currentEntryId) && e != Remove(id) ==>
      Count(r, id) == Count(h, id)
    ensures e.Remove? ==> e.id !in r.entryMap && Count(r, e.id) == 0
  {
    var next := match e
      case Click =>
        if h.currentEntryId in h.entryMap then h.(saved := h.saved[h.currentEntryId := Count(h, h.currentEntryId) + 1]) else h
      case SetCurrent(id) => h.(currentEntryId := id)
      case Remove(id) => h.(entryMap := h.entryMap - {id})
      case Put(id, value) => h.(entryMap := h.entryMap[id := value])
      case SaveAndRestore => Restore(Save(h), h.entryMap, h.currentEntryId);
    Prune(next)
  }

  // ----- the saved instance state -------------------------------------------

  /** The instance state as it is written out: string keys, each entry's
      counter stored under the text of the entry's id. */
  type Bundle = map<string, nat>

  /** The key an entry's state is written under: the text of its id. */
  function KeyOf(id: Id): string {
    NatToString(id)
  }

  /** A key the host writes: the canonical text of some id. */
  predicate IsKey(key: string) {
    AllDigits(key) && NatToString(DigitsValue(key)) == key
  }

  /** The id a key names. */
  function IdOf(key: string): (id: Id)
    requires IsKey(key)
    ensures KeyOf(id) == key
  {
    DigitsValue(key)
  }

  lemma KeysRoundTrip()
    ensures forall id: Id :: IsKey(KeyOf(id)) && IdOf(KeyOf(id)) == id
  {
    forall id: Id ensures IsKey(KeyOf(id)) && IdOf(KeyOf(id)) == id {
      NatToStringRoundTrip(id);
    }
  }

  /** Writes out every entry's counter under the entry's key, and nothing else. */
  function Save(h: Host): (b: Bundle)
    ensures forall id :: KeyOf(id) in b <==> id in h.saved
    ensures forall id :: id in h.saved ==> b[KeyOf(id)] == h.saved[id]
    ensures forall key :: key in b ==> IsKey(key)
  {
    KeysRoundTrip();
    map key | key in (set id | id in h.saved :: KeyOf(id)) :: h.saved[IdOf(key)]
  }

  /** Rebuilds a host from a bundle: the counter of an id is the value under
      its key; keys that are not the text of an id are ignored. */
  function Restore(b: Bundle, entryMap: map<Id, string>, currentEntryId: Id): (h: Host)
    ensures h.entryMap == entryMap && h.currentEntryId == currentEntryId
    ensures forall id :: id in h.saved <==> KeyOf(id) in b
    ensures forall id :: id in h.saved ==> h.saved[id] == b[KeyOf(id)]
  {
    KeysRoundTrip();
    Host(entryMap, currentEntryId, map id | id in (set key | key in b && IsKey(key) :: IdOf(key)) :: b[KeyOf(id)])
  }

  /** Reading back what was written gives the same host. */
  lemma SaveRestoreRoundTrip(h: Host)
    ensures Restore(Save(h), h.entryMap, h.currentEntryId) == h
  {
  }

  /** Recreating the host keeps what it shows, and a host whose saved state
      lives only for entries in its map comes back unchanged. */
  lemma RecreationKeepsHost(h: Host)
    ensures Displayed(Step(h, SaveAndRestore)) == Displayed(h)
    ensures Valid(h) ==> Step(h, SaveAndRestore) == h
  {
    RecreationIsPrune(h);
    if Valid(h) {
      assert Prune(h).saved == h.saved;
    }
  }

  lemma RecreationIsPrune(h: Host)
    ensures Step(h, SaveAndRestore) == Prune(h)
  {
    SaveRestoreRoundTrip(h);
  }

  /** Conversely, a bundle holding only keys the host writes is written
      out again exactly as read. */
  lemma BundleRoundTrip(b: Bundle, entryMap: map<Id, string>, currentEntryId: Id)
    requires forall key :: key in b ==> IsKey(key)
    ensures Save(Restore(b, entryMap, currentEntryId)) == b
  {
    var b' := Save(Restore(b, entryMap, currentEntryId));
    forall key ensures key in b' <==> key in b {
      if key in b' || key in b {
        assert key == KeyOf(IdOf(key));
      }
    }
    forall key | key in b ensures b'[key] == b[key] {
      assert key == KeyOf(IdOf(key));
    }
    assert b'.Keys == b.Keys;
  }

  function Run(h: Host, events: seq<Event>): Host
    decreases |events|
  {
    if |events| == 0 then h else Run(Step(h, events[0]), events[1..])
  }

  /** Without clicks, an entry that is never removed keeps its counter,
      however often the host switches away from it and back. */
  lemma {:induction false} KeptWhileInMap(h: Host, events: seq<Event>, id: Id)
    requires id in h.entryMap
    requires forall i :: 0 <= i < |events| ==> events[i] != Click && events[i] != Remove(id)
    ensures id in Run(h, events).entryMap && Count(Run(h, events), id) == Count(h, id)
    decreases |events|
  {
    if |events| > 0 {
      var next := Step(h, events[0]);
      KeptWhileInMap(next, events[1..], id);
    }
  }

  /** A removed entry loses its state: put back, it starts from 0. */
  lemma RemovedStartsFresh(h: Host, id: Id, value: string)
    ensures Count(Step(Step(h, Remove(id)), Put(id, value)), id) == 0
    ensures Displayed(Step(Step(Step(h, Remove(id)), Put(id, value)), SetCurrent(id))) == Some(Shown(value, id, 0))
  {
  }

  /** The host's tests in sequence: click on the first entry, switch to the
      second (which shows its own counter, 0 when fresh) and back (which
      still shows the first entry's bumped counter). */
  lemma SwitchAwayAndBack(h: Host, a: Id, b: Id)
    requires a != b && a in h.entryMap && b in h.entryMap && h.currentEntryId == a
    ensures var clicked := Step(h, Click);
            var away := Step(clicked, SetCurrent(b));
            var back := Step(away, SetCurrent(a));
            Displayed(clicked) == Some(Shown(h.entryMap[a], a, Count(h, a) + 1))
            && Displayed(away) == Some(Shown(h.entryMap[b], b, Count(h, b)))
            && Displayed(back) == Some(Shown(h.entryMap[a], a, Count(h, a) + 1))
  {
  }
}
