/** The cached list in front of the competitions table, and the requests that read and write the two. */
module CompetitionList {
  import opened Wrappers
  import opened Entities
  import opened Competitions
  import opened CompetitionImport

  // ---------- the cached list ----------

  /** The fields of a list entry that do not depend on the clock. */
  function Timeless(d: CompetitionDto): CompetitionDto {
    d.(isOpen := false, activeWave := None)
  }

  /** Of these competitions, the list shows each active one once, and it shows nothing else, up to the clock. */
  ghost predicate ShowsOf(t: Table, list: seq<CompetitionDto>, ids: set<Id>) {
    && DistinctIds(list)
    && (forall i | 0 <= i < |list| :: IsEntry(t, list[i]) && list[i].id in ids)
    && (forall c | c in ids && c in t && t[c].isActive :: Listed(list, c))
  }

  predicate DistinctIds(list: seq<CompetitionDto>) {
    forall i, j | 0 <= i < j < |list| :: list[i].id != list[j].id
  }

  lemma StillDistinct(list: seq<CompetitionDto>, d: CompetitionDto)
    requires DistinctIds(list) && !Listed(list, d.id)
    ensures DistinctIds(list + [d])
  {
    assert forall i | 0 <= i < |list| :: (list + [d])[i] == list[i];
  }

  ghost predicate Shows(t: Table, list: seq<CompetitionDto>) {
    ShowsOf(t, list, t.Keys)
  }

  /** The table and the cached list in front of it. */
  datatype Site = Site(table: Table, cache: Option<seq<CompetitionDto>>)

  /** A cached list is as good as a fresh one. */
  ghost predicate Coherent(s: Site) {
    s.cache.Some? ==> Shows(s.table, s.cache.value)
  }

  /** A cached list may miss a competition, but what it shows is right. */
  ghost predicate Sound(s: Site) {
    s.cache.Some? ==>
      && DistinctIds(s.cache.value)
      && forall i | 0 <= i < |s.cache.value| :: IsEntry(s.table, s.cache.value[i])
  }

  /** The static part of an entry does not depend on when it was made. */
  lemma EntryAtAnyTime(t: Table, c: Id, now: Time)
    requires c in t && t[c].isActive
    ensures IsEntry(t, ToDto(c, t[c], now)) && ToDto(c, t[c], now).id == c
  {
  }

  lemma OneMoreShown(t: Table, list: seq<CompetitionDto>, ids: set<Id>, d: CompetitionDto)
    requires ShowsOf(t, list, ids) && IsEntry(t, d) && d.id !in ids
    ensures ShowsOf(t, list + [d], ids + {d.id})
  {
    var longer := list + [d];
    StillDistinct(list, d);
    assert forall i | 0 <= i < |list| :: longer[i] == list[i];
    assert longer[|list|] == d;
    forall x | x in ids + {d.id} && x in t && t[x].isActive ensures Listed(longer, x) {
      if x != d.id {
        assert Listed(list, x);
        var i :| 0 <= i < |list| && list[i].id == x;
        assert longer[i].id == x;
      }
    }
  }

  predicate Listed(list: seq<CompetitionDto>, id: Id) {
    exists i :: 0 <= i < |list| && list[i].id == id
  }

  /** The entry shows an active competition as it is in the table. */
  predicate IsEntry(t: Table, d: CompetitionDto) {
    d.id in t && t[d.id].isActive && Timeless(d) == Timeless(ToDto(d.id, t[d.id], 0))
  }

  // ---------- partial updates ----------

  /** A field of an update: not sent, sent as null, or sent with a value. */
  datatype Field<T> = Absent | Null | Given(value: T)

  datatype Patch = Patch(
    name: Field<string>,
    participantType: Field<ParticipantType>,
    minTeamMembers: Field<int>,
    maxTeamMembers: Field<int>,
    description: Field<string>,
    isActive: Field<bool>,
    requiresSubmission: Field<bool>,
    whatsappGroupUrl: Field<string>)

  /** A column that cannot be NULL: the value sent, or what it was. */
  function Or<T>(f: Field<T>, was: T): T {
    if f.Given? then f.value else was
  }

  /** A nullable column: null clears it. */
  function OrNull<T>(f: Field<T>, was: Option<T>): Option<T> {
    match f
    case Absent => was
    case Null => None
    case Given(v) => Some(v)
  }

  /** No null for a column that cannot hold one; the save fails otherwise. */
  predicate Storable(p: Patch) {
    && !p.name.Null? && !p.participantType.Null? && !p.minTeamMembers.Null? && !p.maxTeamMembers.Null?
    && !p.isActive.Null? && !p.requiresSubmission.Null?
  }

  function Patched(c: Competition, p: Patch): Competition {
    c.(name := Or(p.name, c.name),
       participantType := Or(p.participantType, c.participantType),
       minTeamMembers := Or(p.minTeamMembers, c.minTeamMembers),
       maxTeamMembers := Or(p.maxTeamMembers, c.maxTeamMembers),
       description := OrNull(p.description, c.description),
       isActive := Or(p.isActive, c.isActive),
       requiresSubmission := Or(p.requiresSubmission, c.requiresSubmission),
       whatsappGroupUrl := OrNull(p.whatsappGroupUrl, c.whatsappGroupUrl))
  }

  /** What the update route hands to the use case: the body lies over an object that already has the defaults
      of a new competition in four of its fields, so a field left out there counts as sent. */
  function FromBody(p: Patch): Patch {
    p.(name := Default(p.name, ""),
       participantType := Default(p.participantType, Individual),
       minTeamMembers := Default(p.minTeamMembers, 1),
       maxTeamMembers := Default(p.maxTeamMembers, 1))
  }

  function Default<T>(f: Field<T>, default: T): Field<T> {
    if f.Absent? then Given(default) else f
  }

  /** The route changes exactly the fields sent if and only if each of the four that is left out has its
      default already. */
  lemma OmittedFieldsAreReset(c: Competition, p: Patch)
    ensures Patched(c, FromBody(p)) == Patched(c, p) <==>
      && (p.name.Absent? ==> c.name == "")
      && (p.participantType.Absent? ==> c.participantType == Individual)
      && (p.minTeamMembers.Absent? ==> c.minTeamMembers == 1)
      && (p.maxTeamMembers.Absent? ==> c.maxTeamMembers == 1)
  {
    var after, wanted := Patched(c, FromBody(p)), Patched(c, p);
    assert after == wanted.(name := after.name, participantType := after.participantType,
                            minTeamMembers := after.minTeamMembers, maxTeamMembers := after.maxTeamMembers);
  }

  /** Only an active competition is written when it is deactivated. */
  predicate Deactivates(takes: Rules, id: Id, c: Competition) {
    c.isActive ==> takes(id, c.(isActive := false))
  }

  datatype WavePatch = WavePatch(name: Field<string>, price: Field<real>, startDate: Field<Time>, endDate: Field<Time>)

  predicate WaveStorable(p: WavePatch) {
    !p.name.Null? && !p.price.Null? && !p.startDate.Null? && !p.endDate.Null?
  }

  function PatchedWave(w: Wave, p: WavePatch): Wave {
    w.(name := Or(p.name, w.name), price := Or(p.price, w.price),
       startDate := Or(p.startDate, w.startDate), endDate := Or(p.endDate, w.endDate))
  }

  predicate IsWaveAt(t: Table, wave: Id, c: Id, place: int) {
    c in t && 0 <= place < |t[c].waves| && t[c].waves[place].id == wave
  }

  function WithWave(c: Competition, place: int, p: WavePatch): Competition
    requires 0 <= place < |c.waves|
  {
    c.(waves := c.waves[place := PatchedWave(c.waves[place], p)])
  }

  /** The database takes the patched wave: no null where none can be, and a row it accepts. */
  predicate TakesWave(takes: Rules, id: Id, c: Competition, place: int, p: WavePatch)
    requires 0 <= place < |c.waves|
  {
    WaveStorable(p) && takes(id, WithWave(c, place, p))
  }

  /** The new table is the old one with the wave patched at its place. */
  ghost predicate PatchesAt(takes: Rules, t: Table, t': Table, wave: Id, c: Id, place: int, p: WavePatch) {
    IsWaveAt(t, wave, c, place) && TakesWave(takes, c, t[c], place, p) && t' == t[c := WithWave(t[c], place, p)]
  }

  predicate FailsAt(takes: Rules, t: Table, wave: Id, c: Id, place: int, p: WavePatch) {
    IsWaveAt(t, wave, c, place) && !TakesWave(takes, c, t[c], place, p)
  }

  // ---------- what an import does to the cached list ----------

  /** The import inserts an active competition and fails at a later item: looking at the whole input, an
      active item is the first of a new name, no item up to it breaks the import, and one after it does. */
  ghost predicate AbortsAfterActive(takes: Rules, t: Table, data: seq<Item>) {
    exists i, b :: 0 <= i < b && ActiveBeforeBreak(takes, t, data, i) && BreaksAt(takes, t, data, b)
  }

  ghost predicate ActiveBeforeBreak(takes: Rules, t: Table, data: seq<Item>, i: int) {
    && IsFirst(t, data, i) && data[i].isActive == Some(true)
    && forall j | 0 <= j <= i :: !BreaksAt(takes, t, data, j)
  }

  lemma AbortsAfterActiveIff(takes: Rules, t: Table, data: seq<Item>)
    ensures AbortsAfterActive(takes, t, data) <==>
      var end := EndOf(takes, t, data);
      end < |data| && exists i :: 0 <= i < end && ActiveBeforeBreak(takes, t, data, i)
  {
    var end := EndOf(takes, t, data);
    if i, b :| 0 <= i < b && ActiveBeforeBreak(takes, t, data, i) && BreaksAt(takes, t, data, b) {
      assert end <= b;
      assert i < end;
    }
  }

  /** The table after the import, whether it completes or not. */
  ghost function AfterImport(takes: Rules, t: Table, data: seq<Item>): Table {
    Imported(t, data[..EndOf(takes, t, data)])
  }

  /** The list that showed everything before the import still does if and only if the import inserted no
      active competition. */
  lemma StaleIffActiveInserted(t: Table, data: seq<Item>, list: seq<CompetitionDto>)
    requires FreshIds(t, data) && Shows(t, list)
    ensures Shows(Imported(t, data), list) <==> forall i | IsFirst(t, data, i) :: data[i].isActive != Some(true)
  {
    ImportContents(t, data);
    var after := Imported(t, data);
    if i :| IsFirst(t, data, i) && data[i].isActive == Some(true) {
      assert after[data[i].newId].isActive;
      assert forall k | 0 <= k < |list| :: IsEntry(t, list[k]) && list[k].id != data[i].newId;
    }
  }

  /** What was inserted before the end of the import, in terms of the whole input. */
  lemma InsertedActiveIff(takes: Rules, t: Table, data: seq<Item>)
    ensures
      var inserted := data[..EndOf(takes, t, data)];
      (forall i | IsFirst(t, inserted, i) :: inserted[i].isActive != Some(true))
        <==> !exists i :: 0 <= i < EndOf(takes, t, data) && ActiveBeforeBreak(takes, t, data, i)
  {
    var end := EndOf(takes, t, data);
    FirstInPrefix(t, data, end);
    assert forall i | 0 <= i < end :: data[..end][i] == data[i];
    if i :| 0 <= i < end && ActiveBeforeBreak(takes, t, data, i) {
      assert IsFirst(t, data[..end], i);
    }
    forall i | IsFirst(t, data[..end], i) && data[..end][i].isActive == Some(true)
      ensures ActiveBeforeBreak(takes, t, data, i)
    {
    }
  }

  /** A cached list goes stale in an import that fails half-way if and only if an active item precedes the
      failing one: a condition on the table and the input alone. */
  lemma AbortedImportStaleIff(takes: Rules, t: Table, data: seq<Item>, list: seq<CompetitionDto>)
    requires FreshIds(t, data) && Shows(t, list) && EndOf(takes, t, data) < |data|
    ensures Shows(AfterImport(takes, t, data), list) <==> !AbortsAfterActive(takes, t, data)
  {
    var end := EndOf(takes, t, data);
    PrefixIsFresh(t, data, end);
    StaleIffActiveInserted(t, data[..end], list);
    InsertedActiveIff(takes, t, data);
    AbortsAfterActiveIff(takes, t, data);
  }

  /** The import with its effect on the cache: dropped when the import completes with something new. */
  ghost function ImportEffect(takes: Rules, s: Site, data: seq<Item>): Site {
    Site(AfterImport(takes, s.table, data),
         if EndOf(takes, s.table, data) == |data| && NewNames(s.table, data) != {} then None else s.cache)
  }

  lemma ImportStaleIff(takes: Rules, s: Site, data: seq<Item>)
    requires FreshIds(s.table, data) && Coherent(s)
    ensures Coherent(ImportEffect(takes, s, data)) <==> !(s.cache.Some? && AbortsAfterActive(takes, s.table, data))
  {
    AbortsAfterActiveIff(takes, s.table, data);
    if EndOf(takes, s.table, data) < |data| {
      if s.cache.Some? { AbortedImportStaleIff(takes, s.table, data, s.cache.value); }
    } else if NewNames(s.table, data) == {} {
      NothingImported(s.table, data);
      assert data[..|data|] == data;
    }
  }

  /** An import that inserts nothing changes nothing. */
  lemma NothingImported(t: Table, data: seq<Item>)
    requires NewNames(t, data) == {}
    ensures Imported(t, data) == t
  {
    UnstoredIsNew(t, data);
    NothingNew(t, data);
  }

  /** Where the loop stopped is where the import ends. */
  lemma ImportEnd(takes: Rules, t: Table, data: seq<Item>, r: ImportResult, after: Table)
    requires r.Completed? ==>
      && (forall i :: !BreaksAt(takes, t, data, i))
      && after == Imported(t, data) && r.imported == |NewNames(t, data)|
    requires r.Aborted? ==>
      && BreaksAt(takes, t, data, r.at) && (forall i | 0 <= i < r.at :: !BreaksAt(takes, t, data, i))
      && after == Imported(t, data[..r.at])
    ensures EndOf(takes, t, data) == (if r.Completed? then |data| else r.at)
    ensures after == AfterImport(takes, t, data)
    ensures r.Completed? ==> (r.imported > 0 <==> NewNames(t, data) != {})
  {
    if r.Completed? {
      assert data[..|data|] == data;
    }
  }

  class Controller {
    const takes: Rules
    var competitions: Table
    var listCache: Option<seq<CompetitionDto>>

    function View(): Site
      reads this
    {
      Site(competitions, listCache)
    }

    constructor (takes: Rules, competitions: Table)
      ensures this.takes == takes && View() == Site(competitions, None)
    {
      this.takes, this.competitions, listCache := takes, competitions, None;
    }

    method InvalidateCache()
      modifies this`listCache
      ensures listCache.None?
    {
      listCache := None;
    }

    /** The time-to-live of the entry runs out. */
    method Expire()
      modifies this`listCache
      ensures listCache.None?
    {
      listCache := None;
    }

    /** The active competitions, mapped one by one, in the order the database returns them. */
    method FindActive(now: Time) returns (list: seq<CompetitionDto>)
      ensures Shows(competitions, list)
    {
      list := [];
      var todo := competitions.Keys;
      ghost var seen: set<Id> := {};
      while todo != {}
        invariant seen !! todo && seen + todo == competitions.Keys
        invariant ShowsOf(competitions, list, seen)
        decreases todo
      {
        var c :| c in todo;
        if competitions[c].isActive {
          EntryAtAnyTime(competitions, c, now);
          OneMoreShown(competitions, list, seen, ToDto(c, competitions[c], now));
          list := list + [ToDto(c, competitions[c], now)];
        }
        todo, seen := todo - {c}, seen + {c};
      }
    }

    /** The public list: from the cache when there is an entry, else computed and cached. It is complete
        exactly if the cache was coherent. */
    method GetAll(now: Time) returns (list: seq<CompetitionDto>)
      modifies this`listCache
      ensures listCache == Some(list)
      ensures Shows(competitions, list) <==> Coherent(old(View()))
      ensures old(listCache).Some? ==> list == old(listCache).value
    {
      if listCache.Some? {
        return listCache.value;
      }
      list := FindActive(now);
      listCache := Some(list);
    }

    /** Creates a competition, active by default; changes nothing when the database refuses the row. */
    method Create(newId: Id, c: Competition) returns (saved: bool)
      requires newId !in competitions
      modifies this
      ensures saved == takes(newId, c.(isActive := true))
      ensures View() == if saved then Site(old(competitions)[newId := c.(isActive := true)], None) else old(View())
    {
      saved := takes(newId, c.(isActive := true));
      if saved {
        competitions := competitions[newId := c.(isActive := true)];
        InvalidateCache();
      }
    }

    method FindByName(name: string) returns (found: bool)
      ensures found <==> NameStored(competitions, name)
    {
      var todo := competitions.Keys;
      while todo != {}
        invariant todo <= competitions.Keys
        invariant forall c | c in competitions && c !in todo :: competitions[c].name != name
        decreases todo
      {
        var c :| c in todo;
        if competitions[c].name == name {
          return true;
        }
        todo := todo - {c};
      }
      found := false;
    }

    /** The import loop. It completes exactly if no item breaks it; the first that does ends it and leaves
        what was inserted before. */
    method ImportItems(data: seq<Item>) returns (r: ImportResult)
      requires FreshIds(competitions, data)
      modifies this`competitions
      ensures r.Completed? <==> forall i :: !BreaksAt(takes, old(competitions), data, i)
      ensures r.Completed? ==>
        && competitions == Imported(old(competitions), data)
        && r.imported == |NewNames(old(competitions), data)|
        && r.imported + r.skipped + |Nameless(data)| == |data|
      ensures r.Aborted? ==>
        && BreaksAt(takes, old(competitions), data, r.at)
        && (forall i | 0 <= i < r.at :: !BreaksAt(takes, old(competitions), data, i))
        && competitions == Imported(old(competitions), data[..r.at])
    {
      ghost var t := competitions;
      var imported, skipped := 0, 0;
      StartsAt(takes, t, data);
      for i := 0 to |data|
        invariant Reached(takes, t, data, i, competitions, imported, skipped)
      {
        var item := data[i];
        OneMore(takes, t, data, i, competitions, imported, skipped);
        if item.name == "" {
          continue;
        }
        var existing := FindByName(item.name);
        if existing {
          skipped := skipped + 1;
          continue;
        }
        var entity := FromItem(item);
        if !takes(item.newId, entity) {
          return Aborted(i);
        }
        competitions := competitions[item.newId := entity];
        imported := imported + 1;
      }
      assert data[..|data|] == data;
      r := Completed(imported, skipped);
    }

    /** The controller drops the cached list when something was imported; an aborted import never gets there,
        and that is the one way a coherent list goes stale. */
    method ImportCompetitions(data: seq<Item>) returns (r: ImportResult)
      requires FreshIds(competitions, data)
      modifies this
      ensures r.Completed? <==> forall i :: !BreaksAt(takes, old(competitions), data, i)
      ensures r.Completed? ==>
        && competitions == Imported(old(competitions), data)
        && r.imported == |NewNames(old(competitions), data)|
        && r.imported + r.skipped + |Nameless(data)| == |data|
      ensures r.Aborted? ==> r.at == EndOf(takes, old(competitions), data)
      ensures View() == ImportEffect(takes, old(View()), data)
      ensures Coherent(old(View())) ==>
        (Coherent(View()) <==> !(old(listCache).Some? && AbortsAfterActive(takes, old(competitions), data)))
    {
      ghost var before := View();
      r := ImportItems(data);
      ImportEnd(takes, before.table, data, r, competitions);
      if r.Completed? && r.imported > 0 {
        InvalidateCache();
      }
      if Coherent(before) { ImportStaleIff(takes, before, data); }
    }

    /** A null for a column that cannot hold one, or a row the database refuses, makes the save fail before
        the cache is dropped. */
    method Update(id: Id, body: Patch) returns (saved: bool)
      modifies this
      ensures
        var patch := FromBody(body);
        && saved == (id in old(competitions) && Storable(patch) && takes(id, Patched(old(competitions)[id], patch)))
        && View() == if saved then Site(old(competitions)[id := Patched(old(competitions)[id], patch)], None)
                     else old(View())
    {
      if id !in competitions {
        return false;
      }
      var patch := FromBody(body);
      var c := competitions[id];
      c := c.(name := Or(patch.name, c.name));
      c := c.(participantType := Or(patch.participantType, c.participantType));
      c := c.(minTeamMembers := Or(patch.minTeamMembers, c.minTeamMembers));
      c := c.(maxTeamMembers := Or(patch.maxTeamMembers, c.maxTeamMembers));
      c := c.(description := OrNull(patch.description, c.description));
      c := c.(isActive := Or(patch.isActive, c.isActive));
      c := c.(requiresSubmission := Or(patch.requiresSubmission, c.requiresSubmission));
      c := c.(whatsappGroupUrl := OrNull(patch.whatsappGroupUrl, c.whatsappGroupUrl));
      saved := Storable(patch) && takes(id, c);
      if saved {
        competitions := competitions[id := c];
        InvalidateCache();
      }
    }

    /** Deactivates; a competition that is already inactive is left alone, and the cache dropped anyway. */
    method SoftDelete(id: Id) returns (done: bool)
      modifies this
      ensures done == (id in old(competitions) && Deactivates(takes, id, old(competitions)[id]))
      ensures View() == if done then Site(old(competitions)[id := old(competitions)[id].(isActive := false)], None)
                        else old(View())
    {
      if id !in competitions {
        return false;
      }
      if competitions[id].isActive {
        if !takes(id, competitions[id].(isActive := false)) {
          return false;
        }
        competitions := competitions[id := competitions[id].(isActive := false)];
      }
      InvalidateCache();
      done := true;
    }

    /** The competition that has the wave, and its place there. */
    method FindWave(wave: Id) returns (r: Option<(Id, nat)>)
      ensures r.Some? ==> IsWaveAt(competitions, wave, r.value.0, r.value.1)
      ensures r.None? ==> forall c, i :: !IsWaveAt(competitions, wave, c, i)
    {
      var todo := competitions.Keys;
      while todo != {}
        invariant todo <= competitions.Keys
        invariant forall c, i | c !in todo :: !IsWaveAt(competitions, wave, c, i)
        decreases todo
      {
        var c :| c in todo;
        var waves := competitions[c].waves;
        for i := 0 to |waves|
          invariant forall j | 0 <= j < i :: waves[j].id != wave
        {
          if waves[i].id == wave {
            return Some((c, i));
          }
        }
        todo := todo - {c};
      }
      r := None;
    }

    /** Changes one wave of one competition; a null, or a wave the database refuses, makes the save fail. */
    method UpdateWave(wave: Id, patch: WavePatch) returns (found: bool, saved: bool)
      modifies this
      ensures found <==> exists c, i :: IsWaveAt(old(competitions), wave, c, i)
      ensures saved ==> listCache.None?
                        && exists c, i :: PatchesAt(takes, old(competitions), competitions, wave, c, i, patch)
      ensures found && !saved ==> exists c, i :: FailsAt(takes, old(competitions), wave, c, i, patch)
      ensures !saved ==> View() == old(View())
    {
      var at := FindWave(wave);
      if at.None? {
        return false, false;
      }
      var (c, place) := at.value;
      found := true;
      var updated := WithWave(competitions[c], place, patch);
      saved := TakesWave(takes, c, competitions[c], place, patch);
      assert !saved ==> FailsAt(takes, competitions, wave, c, place, patch);
      if saved {
        competitions := competitions[c := updated];
        InvalidateCache();
        assert PatchesAt(takes, old(competitions), competitions, wave, c, place, patch);
      }
    }
  }

  // ---------- any sequence of requests ----------

  datatype Request =
    | List(now: Time)
    | Expiry
    | Create(newId: Id, competition: Competition)
    | Import(data: seq<Item>)
    | Update(id: Id, patch: Patch)
    | SoftDelete(id: Id)
    | UpdateWave(wave: Id, wavePatch: WavePatch)

  /** A request and whether it was answered without an error. */
  datatype Event = Event(request: Request, done: bool)

  /** Generated ids are new. */
  ghost predicate FreshFor(t: Table, r: Request) {
    match r
    case Create(newId, _) => newId !in t
    case Import(data) => FreshIds(t, data)
    case _ => true
  }

  /** What a request may do to the table and the cached list. */
  ghost predicate Serves(takes: Rules, s: Site, e: Event, s': Site) {
    match e.request
    case List(_) =>
      && e.done && s'.table == s.table && s'.cache.Some?
      && (if s.cache.Some? then s'.cache == s.cache else Shows(s.table, s'.cache.value))
    case Expiry => e.done && s' == s.(cache := None)
    case Create(newId, c) =>
      && (e.done <==> takes(newId, c.(isActive := true)))
      && s' == if e.done then Site(s.table[newId := c.(isActive := true)], None) else s
    case Import(data) => (e.done <==> EndOf(takes, s.table, data) == |data|) && s' == ImportEffect(takes, s, data)
    case Update(id, body) =>
      var patch := FromBody(body);
      && (e.done <==> id in s.table && Storable(patch) && takes(id, Patched(s.table[id], patch)))
      && s' == if e.done then Site(s.table[id := Patched(s.table[id], patch)], None) else s
    case SoftDelete(id) =>
      && (e.done <==> id in s.table && Deactivates(takes, id, s.table[id]))
      && s' == if e.done then Site(s.table[id := s.table[id].(isActive := false)], None) else s
    case UpdateWave(wave, patch) =>
      && (e.done ==> s'.cache.None? && exists c, i :: PatchesAt(takes, s.table, s'.table, wave, c, i, patch))
      && (!e.done ==> s' == s && ((forall c, i :: !IsWaveAt(s.table, wave, c, i))
                                  || exists c, i :: FailsAt(takes, s.table, wave, c, i, patch)))
  }

  /** The controller answers any request in this way. */
  method Handle(c: Controller, r: Request) returns (done: bool)
    requires FreshFor(c.competitions, r)
    modifies c
    ensures Serves(c.takes, old(c.View()), Event(r, done), c.View())
  {
    match r
    case List(now) =>
      var _ := c.GetAll(now);
      done := true;
    case Expiry =>
      c.Expire();
      done := true;
    case Create(newId, competition) => done := c.Create(newId, competition);
    case Import(data) =>
      var result := c.ImportCompetitions(data);
      done := result.Completed?;
    case Update(id, patch) => done := c.Update(id, patch);
    case SoftDelete(id) => done := c.SoftDelete(id);
    case UpdateWave(wave, patch) =>
      var found;
      found, done := c.UpdateWave(wave, patch);
  }

  ghost predicate IsTrace(takes: Rules, sites: seq<Site>, events: seq<Event>) {
    && |sites| == |events| + 1
    && forall i | 0 <= i < |events| ::
         FreshFor(sites[i].table, events[i].request) && Serves(takes, sites[i], events[i], sites[i + 1])
  }

  /** A writer that got through, or the end of the time-to-live. */
  ghost predicate Drops(s: Site, e: Event) {
    e.done && !e.request.List? && (e.request.Import? ==> NewNames(s.table, e.request.data) != {})
  }

  /** An import that fails after inserting an active competition, behind a cached list. */
  ghost predicate Misses(takes: Rules, s: Site, e: Event) {
    s.cache.Some? && e.request.Import? && AbortsAfterActive(takes, s.table, e.request.data)
  }

  lemma DroppedIsFresh(takes: Rules, s: Site, e: Event, s': Site)
    requires Serves(takes, s, e, s') && Drops(s, e)
    ensures s'.cache.None?
  {
  }

  /** Without a drop a cached list stays, and the table at most grows. */
  lemma KeptIsKept(takes: Rules, s: Site, e: Event, s': Site)
    requires FreshFor(s.table, e.request) && Serves(takes, s, e, s') && !Drops(s, e)
    ensures s.cache.Some? ==> s'.cache == s.cache
    ensures forall c | c in s.table :: c in s'.table && s'.table[c] == s.table[c]
  {
    if e.request.Import? {
      var data := e.request.data;
      if e.done {
        NothingImported(s.table, data);
        assert data[..|data|] == data;
      }
      PrefixIsFresh(s.table, data, EndOf(takes, s.table, data));
      ImportContents(s.table, data[..EndOf(takes, s.table, data)]);
    }
  }

  lemma SoundStep(takes: Rules, s: Site, e: Event, s': Site)
    requires FreshFor(s.table, e.request) && Serves(takes, s, e, s') && Sound(s)
    ensures Sound(s')
  {
    if Drops(s, e) {
      DroppedIsFresh(takes, s, e, s');
    } else {
      KeptIsKept(takes, s, e, s');
    }
  }

  /** A list that misses a competition goes on missing it. */
  lemma StaleStaysStale(takes: Rules, s: Site, e: Event, s': Site)
    requires FreshFor(s.table, e.request) && Serves(takes, s, e, s') && Sound(s) && !Coherent(s) && !Drops(s, e)
    ensures !Coherent(s')
  {
    KeptIsKept(takes, s, e, s');
    var c :| c in s.table && s.table[c].isActive && !Listed(s.cache.value, c);
    assert s'.table[c].isActive;
  }

  lemma CoherentStep(takes: Rules, s: Site, e: Event, s': Site)
    requires FreshFor(s.table, e.request) && Serves(takes, s, e, s') && Coherent(s) && !Drops(s, e)
    ensures Coherent(s') <==> !Misses(takes, s, e)
  {
    if e.request.Import? { ImportStaleIff(takes, s, e.request.data); }
  }

  /** One request: the list is coherent afterwards if it was dropped, or was coherent and nothing was missed. */
  lemma StepIsCoherentIff(takes: Rules, s: Site, e: Event, s': Site)
    requires FreshFor(s.table, e.request) && Serves(takes, s, e, s') && Sound(s)
    ensures Coherent(s') <==> Drops(s, e) || (Coherent(s) && !Misses(takes, s, e))
  {
    if Drops(s, e) {
      DroppedIsFresh(takes, s, e, s');
    } else if Coherent(s) {
      CoherentStep(takes, s, e, s');
    } else {
      StaleStaysStale(takes, s, e, s');
    }
  }

  /** At request `k` the list missed a competition, and it has not been dropped since. */
  ghost predicate MissedSince(takes: Rules, sites: seq<Site>, events: seq<Event>, k: int)
    requires |sites| == |events| + 1
  {
    && 0 <= k < |events| && Misses(takes, sites[k], events[k])
    && forall m | k < m < |events| :: !Drops(sites[m], events[m])
  }

  ghost predicate SomethingMissed(takes: Rules, sites: seq<Site>, events: seq<Event>)
    requires |sites| == |events| + 1
  {
    exists k :: MissedSince(takes, sites, events, k)
  }

  /** Over any sequence of requests to a controller with an empty cache: what a cached list shows is always
      right, and it is complete if and only if no import has failed after inserting an active competition
      since the list was last dropped. So every successful writer and the end of the time-to-live repair
      the list, and a stale list is served exactly until then. */
  lemma {:induction false} ListIsCompleteIff(takes: Rules, sites: seq<Site>, events: seq<Event>)
    requires IsTrace(takes, sites, events) && sites[0].cache.None?
    ensures Sound(sites[|events|])
    ensures Coherent(sites[|events|]) <==> !SomethingMissed(takes, sites, events)
  {
    if events != [] {
      var n := |events| - 1;
      ListIsCompleteIff(takes, sites[..|sites| - 1], events[..n]);
      SoundStep(takes, sites[n], events[n], sites[n + 1]);
      StepIsCoherentIff(takes, sites[n], events[n], sites[n + 1]);
      DroppedIsNotMissing(takes, sites[n], events[n]);
      MissedOneLater(takes, sites, events);
    }
  }

  /** An import that fails drops nothing. */
  lemma DroppedIsNotMissing(takes: Rules, s: Site, e: Event)
    requires exists s' :: Serves(takes, s, e, s')
    ensures !(Drops(s, e) && Misses(takes, s, e))
  {
    if Misses(takes, s, e) { AbortsAfterActiveIff(takes, s.table, e.request.data); }
  }

  lemma MissedOneLater(takes: Rules, sites: seq<Site>, events: seq<Event>)
    requires |sites| == |events| + 1 && events != []
    ensures
      var n := |events| - 1;
      SomethingMissed(takes, sites, events) <==>
        || Misses(takes, sites[n], events[n])
        || (!Drops(sites[n], events[n]) && SomethingMissed(takes, sites[..n + 1], events[..n]))
  {
    var n := |events| - 1;
    var sites', events' := sites[..n + 1], events[..n];
    assert forall m | 0 <= m < n :: sites[..n + 1][m] == sites[m] && events[..n][m] == events[m];
    if k :| MissedSince(takes, sites, events, k) {
      if k < n { assert MissedSince(takes, sites', events', k); }
    }
    if Misses(takes, sites[n], events[n]) {
      assert MissedSince(takes, sites, events, n);
    } else if !Drops(sites[n], events[n]) {
      if k :| MissedSince(takes, sites', events', k) {
        assert MissedSince(takes, sites, events, k);
      }
    }
  }

  // ---------- what the writers write ----------

  /** The column of an update that cannot be NULL: what was sent, or the given default. */
  predicate Holds<T(==)>(now: T, f: Field<T>, absent: T) {
    (f.Absent? ==> now == absent) && (f.Given? ==> now == f.value)
  }

  /** A nullable column: what was sent, nothing after a null, or what it was. */
  predicate HoldsOrNull<T(==)>(now: Option<T>, f: Field<T>, was: Option<T>) {
    (f.Absent? ==> now == was) && (f.Null? ==> now == None) && (f.Given? ==> now == Some(f.value))
  }

  /** An update that gets through writes each column from the field of its name, and no other row. */
  lemma UpdateWrites(takes: Rules, s: Site, id: Id, body: Patch, done: bool, s': Site)
    requires Serves(takes, s, Event(Update(id, body), done), s')
    ensures done ==>
      && id in s.table && s'.cache == None && s'.table == s.table[id := s'.table[id]]
      && var was, now := s.table[id], s'.table[id];
         && Holds(now.name, body.name, "") && Holds(now.participantType, body.participantType, Individual)
         && Holds(now.minTeamMembers, body.minTeamMembers, 1) && Holds(now.maxTeamMembers, body.maxTeamMembers, 1)
         && Holds(now.isActive, body.isActive, was.isActive)
         && Holds(now.requiresSubmission, body.requiresSubmission, was.requiresSubmission)
         && HoldsOrNull(now.description, body.description, was.description)
         && HoldsOrNull(now.whatsappGroupUrl, body.whatsappGroupUrl, was.whatsappGroupUrl)
         && now.waves == was.waves && takes(id, now)
    ensures !done ==> s' == s
    ensures done ==>
      && body.name != Null && body.participantType != Null && body.minTeamMembers != Null
      && body.maxTeamMembers != Null && body.isActive != Null && body.requiresSubmission != Null
  {
  }

  /** A deactivation writes one flag, or nothing when it is down already; it fails on an unknown id and when
      the database refuses the write. */
  lemma SoftDeleteWrites(takes: Rules, s: Site, id: Id, done: bool, s': Site)
    requires Serves(takes, s, Event(SoftDelete(id), done), s')
    ensures id !in s.table ==> !done
    ensures id in s.table && !s.table[id].isActive ==> done && s' == Site(s.table, None)
    ensures id in s.table && s.table[id].isActive ==>
      var off := s.table[id].(isActive := false);
      (done <==> takes(id, off)) && (done ==> s' == Site(s.table[id := off], None))
    ensures !done ==> s' == s
  {
    if id in s.table && !s.table[id].isActive { assert s.table[id := s.table[id].(isActive := false)] == s.table; }
  }

  /** An update of a wave that gets through writes the four columns of one wave with this id; it fails when
      there is no such wave, on a null, and when the database refuses the row. */
  lemma UpdateWaveWrites(takes: Rules, s: Site, wave: Id, p: WavePatch, done: bool, s': Site)
    requires Serves(takes, s, Event(UpdateWave(wave, p), done), s')
    ensures done ==> s'.cache == None && exists c, i :: WritesWave(s.table, s'.table, wave, p, c, i)
    ensures !done ==> s' == s
    ensures p.name.Null? || p.price.Null? || p.startDate.Null? || p.endDate.Null? ==> !done
    ensures !done && !p.name.Null? && !p.price.Null? && !p.startDate.Null? && !p.endDate.Null? ==>
      || (forall c, i | c in s.table && 0 <= i < |s.table[c].waves| :: s.table[c].waves[i].id != wave)
      || exists t', c, i :: WouldWrite(takes, s.table, t', wave, p, c, i)
  {
    if !done && WaveStorable(p) {
      if c, i :| FailsAt(takes, s.table, wave, c, i, p) {
        var t' := s.table[c := WithWave(s.table[c], i, p)];
        assert WouldWrite(takes, s.table, t', wave, p, c, i);
      } else {
        forall c, i | c in s.table && 0 <= i < |s.table[c].waves| ensures s.table[c].waves[i].id != wave {
          assert !IsWaveAt(s.table, wave, c, i);
        }
      }
    }
    if done {
      var c, i :| PatchesAt(takes, s.table, s'.table, wave, c, i, p);
      assert WritesWave(s.table, s'.table, wave, p, c, i);
    }
  }

  /** The database refuses what the update would write. */
  ghost predicate WouldWrite(takes: Rules, t: Table, t': Table, wave: Id, p: WavePatch, c: Id, i: int) {
    WritesWave(t, t', wave, p, c, i) && !takes(c, t'[c])
  }

  ghost predicate WritesWave(t: Table, t': Table, wave: Id, p: WavePatch, c: Id, i: int) {
    && c in t && c in t' && 0 <= i < |t[c].waves| && |t'[c].waves| == |t[c].waves|
    && t' == t[c := t[c].(waves := t'[c].waves)]
    && (forall j | 0 <= j < |t[c].waves| && j != i :: t'[c].waves[j] == t[c].waves[j])
    && var was, now := t[c].waves[i], t'[c].waves[i];
       && was.id == wave && now.id == wave
       && Holds(now.name, p.name, was.name) && Holds(now.price, p.price, was.price)
       && Holds(now.startDate, p.startDate, was.startDate) && Holds(now.endDate, p.endDate, was.endDate)
  }

  // ---------- an import that fails half-way ----------

  /** Two items of different names; the first is active and the database takes it, the second it refuses. */
  ghost predicate FailsHalfWay(takes: Rules, first: Item, second: Item) {
    && first.newId != second.newId && first.name != "" && second.name != "" && first.name != second.name
    && first.isActive == Some(true)
    && takes(first.newId, FromItem(first)) && !takes(second.newId, FromItem(second))
  }

  lemma BrokenImport(takes: Rules, first: Item, second: Item)
    requires FailsHalfWay(takes, first, second)
    ensures
      var data := [first, second];
      && FreshIds(map[], data) && EndOf(takes, map[], data) == 1 && AbortsAfterActive(takes, map[], data)
      && AfterImport(takes, map[], data) == map[first.newId := FromItem(first)]
  {
    var t: Table := map[];
    var data := [first, second];
    assert IsFirst(t, data, 0) && IsFirst(t, data, 1);
    assert BreaksAt(takes, t, data, 1);
    assert ActiveBeforeBreak(takes, t, data, 0);
    assert data[..1] == [data[0]] && [data[0]][..0] == [];
    assert Imported(t, []) == t;
    assert IsNew(t, data[0]);
  }

  /** From an empty table: the list is asked for, an import of two items fails at the second, and the list
      is asked for again. It is still empty, although the first item is an active competition by now. */
  lemma StaleListIsServed(takes: Rules, first: Item, second: Item, now: Time)
    returns (sites: seq<Site>, events: seq<Event>)
    requires FailsHalfWay(takes, first, second)
    ensures IsTrace(takes, sites, events) && sites[0] == Site(map[], None)
    ensures
      var final, a := sites[|events|], first.newId;
      && |events| == 3 && events[2] == Event(List(now), true)
      && final.cache == Some([]) && a in final.table && final.table[a].isActive && !Coherent(final)
  {
    var data := [first, second];
    BrokenImport(takes, first, second);
    var t: Table := map[first.newId := FromItem(first)];
    events := [Event(List(now), true), Event(Import(data), false), Event(List(now), true)];
    sites := [Site(map[], None), Site(map[], Some([])), Site(t, Some([])), Site(t, Some([]))];
    assert Shows(map[], []);
    assert Serves(takes, sites[0], events[0], sites[1]);
    assert Serves(takes, sites[1], events[1], sites[2]);
    assert Serves(takes, sites[2], events[2], sites[3]);
  }

  function NamedItem(id: Id, name: string): Item {
    Item(id, name, None, 1, 1, None, None, Some(true), None, None)
  }

  /** Such items exist: the second has two waves of one name, or a name that its column cannot hold. */
  lemma TwoWaysToFail(a: Id, b: Id)
    requires a != b
    ensures
      var wave := Wave(b, "early", 0.0, 0, 1);
      var first := NamedItem(a, "first").(waves := Some([wave, wave.(id := a, name := "late")]));
      FailsHalfWay(ColumnsTake, first, NamedItem(b, "second").(waves := Some([wave, wave])))
    ensures FailsHalfWay(ColumnsTake, NamedItem(a, "first"), NamedItem(b, seq(151, _ => 'x')))
  {
    assert "first"[0] != "second"[0] && "first"[0] != 'x';
    var wave := Wave(b, "early", 0.0, 0, 1);
    assert [wave, wave][0].name == [wave, wave][1].name;
    assert "early"[0] != "late"[0];
  }
}
