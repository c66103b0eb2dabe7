/** How a competition is shown: its waves in order, the running one, and whether it is open. */
module Competitions {
  import opened Wrappers
  import opened Entities

  datatype CompetitionDto = CompetitionDto(
    id: Id,
    name: string,
    participantType: ParticipantType,
    minTeamMembers: int,
    maxTeamMembers: int,
    description: Option<string>,
    requiresSubmission: bool,
    isActive: bool,
    isOpen: bool,
    activeWave: Option<Wave>,
    waves: seq<Wave>,
    whatsappGroupUrl: Option<string>)

  predicate EarliestFirst(waves: seq<Wave>) {
    forall i, j | 0 <= i < j < |waves| :: waves[i].startDate <= waves[j].startDate
  }

  /** Places a wave before the first one that starts later. */
  function InsertWave(w: Wave, sorted: seq<Wave>): (r: seq<Wave>)
    ensures multiset(r) == multiset(sorted) + multiset{w}
  {
    if sorted == [] then [w]
    else if w.startDate < sorted[0].startDate then [w] + sorted
    else
      assert sorted == [sorted[0]] + sorted[1..];
      [sorted[0]] + InsertWave(w, sorted[1..])
  }

  lemma {:induction false} InsertKeepsOrder(w: Wave, sorted: seq<Wave>)
    requires EarliestFirst(sorted)
    ensures EarliestFirst(InsertWave(w, sorted))
    ensures InsertWave(w, sorted) != []
    ensures InsertWave(w, sorted)[0] == w || (sorted != [] && InsertWave(w, sorted)[0] == sorted[0])
  {
    if sorted != [] {
      InsertKeepsOrder(w, sorted[1..]);
      if w.startDate < sorted[0].startDate {
        InFront(w, sorted);
      } else {
        InFront(sorted[0], InsertWave(w, sorted[1..]));
      }
    }
  }

  lemma InFront(w: Wave, sorted: seq<Wave>)
    requires EarliestFirst(sorted) && (sorted != [] ==> w.startDate <= sorted[0].startDate)
    ensures EarliestFirst([w] + sorted)
  {
  }

  /** A copy of the waves, sorted by start date. */
  function SortWaves(waves: seq<Wave>): (r: seq<Wave>)
    ensures EarliestFirst(r) && multiset(r) == multiset(waves)
  {
    if waves == [] then []
    else
      assert waves == waves[..|waves| - 1] + [waves[|waves| - 1]];
      InsertKeepsOrder(waves[|waves| - 1], SortWaves(waves[..|waves| - 1]));
      InsertWave(waves[|waves| - 1], SortWaves(waves[..|waves| - 1]))
  }

  /** The waves that start at the time, in order. */
  function StartingAt(waves: seq<Wave>, t: Time): seq<Wave> {
    if waves == [] then []
    else (if waves[0].startDate == t then [waves[0]] else []) + StartingAt(waves[1..], t)
  }

  lemma {:induction false} StartingAtAppend(waves: seq<Wave>, w: Wave, t: Time)
    ensures StartingAt(waves + [w], t) == StartingAt(waves, t) + if w.startDate == t then [w] else []
  {
    if waves != [] {
      assert (waves + [w])[1..] == waves[1..] + [w];
      StartingAtAppend(waves[1..], w, t);
    }
  }

  lemma {:induction false} StartingAtLast(waves: seq<Wave>, t: Time)
    requires waves != []
    ensures
      var last := waves[|waves| - 1];
      StartingAt(waves, t) == StartingAt(waves[..|waves| - 1], t) + if last.startDate == t then [last] else []
  {
    StartingAtAppend(waves[..|waves| - 1], waves[|waves| - 1], t);
    assert waves[..|waves| - 1] + [waves[|waves| - 1]] == waves;
  }

  lemma {:induction false} LaterStarts(waves: seq<Wave>, t: Time)
    requires forall w | w in waves :: w.startDate > t
    ensures StartingAt(waves, t) == []
  {
    if waves != [] { LaterStarts(waves[1..], t); }
  }

  lemma StartingAtCons(w: Wave, rest: seq<Wave>, t: Time)
    ensures StartingAt([w] + rest, t) == (if w.startDate == t then [w] else []) + StartingAt(rest, t)
  {
    assert ([w] + rest)[1..] == rest;
  }

  lemma InsertStep(w: Wave, sorted: seq<Wave>)
    requires sorted != []
    ensures InsertWave(w, sorted) ==
      if w.startDate < sorted[0].startDate then [w] + sorted else [sorted[0]] + InsertWave(w, sorted[1..])
  {
  }

  lemma {:induction false} InsertFirst(w: Wave, sorted: seq<Wave>, t: Time)
    requires EarliestFirst(sorted) && sorted != [] && w.startDate < sorted[0].startDate
    ensures StartingAt([w] + sorted, t) == StartingAt(sorted, t) + if w.startDate == t then [w] else []
  {
    StartingAtCons(w, sorted, t);
    if w.startDate == t { LaterStarts(sorted, t); }
  }

  lemma {:induction false} InsertLater(sorted: seq<Wave>, longer: seq<Wave>, ties: seq<Wave>, t: Time)
    requires sorted != [] && StartingAt(longer, t) == StartingAt(sorted[1..], t) + ties
    ensures StartingAt([sorted[0]] + longer, t) == StartingAt(sorted, t) + ties
  {
    var first := if sorted[0].startDate == t then [sorted[0]] else [];
    StartingAtCons(sorted[0], longer, t);
    assert first + (StartingAt(sorted[1..], t) + ties) == (first + StartingAt(sorted[1..], t)) + ties;
  }

  lemma {:induction false} InsertKeepsTies(w: Wave, sorted: seq<Wave>, t: Time)
    requires EarliestFirst(sorted)
    ensures StartingAt(InsertWave(w, sorted), t) == StartingAt(sorted, t) + if w.startDate == t then [w] else []
  {
    if sorted != [] {
      InsertStep(w, sorted);
      if w.startDate < sorted[0].startDate {
        InsertFirst(w, sorted, t);
      } else {
        InsertKeepsTies(w, sorted[1..], t);
        InsertLater(sorted, InsertWave(w, sorted[1..]), if w.startDate == t then [w] else [], t);
      }
    }
  }

  lemma SortStep(waves: seq<Wave>)
    requires waves != []
    ensures SortWaves(waves) == InsertWave(waves[|waves| - 1], SortWaves(waves[..|waves| - 1]))
  {
  }

  lemma {:induction false} InsertLast(waves: seq<Wave>, sorted: seq<Wave>, t: Time)
    requires waves != [] && EarliestFirst(sorted)
    requires StartingAt(sorted, t) == StartingAt(waves[..|waves| - 1], t)
    ensures StartingAt(InsertWave(waves[|waves| - 1], sorted), t) == StartingAt(waves, t)
  {
    InsertKeepsTies(waves[|waves| - 1], sorted, t);
    StartingAtLast(waves, t);
  }

  /** The sort is stable: waves that start at the same time stay in the order they had. */
  lemma {:induction false} SortIsStable(waves: seq<Wave>, t: Time)
    ensures StartingAt(SortWaves(waves), t) == StartingAt(waves, t)
  {
    if waves != [] {
      SortIsStable(waves[..|waves| - 1], t);
      InsertLast(waves, SortWaves(waves[..|waves| - 1]), t);
      SortStep(waves);
    }
  }

  predicate IsRunning(w: Wave, now: Time) {
    w.startDate <= now <= w.endDate
  }

  function FirstRunning(waves: seq<Wave>, now: Time): Option<Wave> {
    if waves == [] then None
    else if IsRunning(waves[0], now) then Some(waves[0])
    else FirstRunning(waves[1..], now)
  }

  function ToDto(id: Id, c: Competition, now: Time): CompetitionDto {
    var sorted := SortWaves(c.waves);
    var active := FirstRunning(sorted, now);
    CompetitionDto(id, c.name, c.participantType, c.minTeamMembers, c.maxTeamMembers, c.description,
                   c.requiresSubmission, c.isActive, c.isActive && active.Some?, active, sorted, c.whatsappGroupUrl)
  }

  lemma {:induction false} FirstRunningIsEarliest(waves: seq<Wave>, now: Time)
    requires EarliestFirst(waves)
    ensures
      var first := FirstRunning(waves, now);
      && (first.None? <==> forall w | w in waves :: !IsRunning(w, now))
      && (first.Some? ==> first.value in waves && IsRunning(first.value, now)
                          && forall w | w in waves && IsRunning(w, now) :: first.value.startDate <= w.startDate)
  {
    if waves != [] {
      FirstRunningIsEarliest(waves[1..], now);
      assert waves == [waves[0]] + waves[1..];
    }
  }

  /** A competition is open exactly when it is active and some wave is running; the wave shown as active
      is a running one that started first; all waves are shown, earliest first and otherwise as they were;
      the rest is as in the row. */
  lemma DtoShowsTheRunningWave(id: Id, c: Competition, now: Time)
    ensures
      var dto := ToDto(id, c, now);
      && (dto.isOpen <==> c.isActive && exists w :: w in c.waves && w.startDate <= now <= w.endDate)
      && (dto.activeWave.Some? <==> exists w :: w in c.waves && IsRunning(w, now))
      && (dto.activeWave.Some? ==>
            && dto.activeWave.value in c.waves && IsRunning(dto.activeWave.value, now)
            && forall w | w in c.waves && IsRunning(w, now) :: dto.activeWave.value.startDate <= w.startDate)
      && multiset(dto.waves) == multiset(c.waves) && EarliestFirst(dto.waves)
      && (forall t :: StartingAt(dto.waves, t) == StartingAt(c.waves, t))
      && dto.id == id && dto.name == c.name && dto.participantType == c.participantType
      && dto.minTeamMembers == c.minTeamMembers && dto.maxTeamMembers == c.maxTeamMembers
      && dto.description == c.description && dto.requiresSubmission == c.requiresSubmission
      && dto.isActive == c.isActive && dto.whatsappGroupUrl == c.whatsappGroupUrl
  {
    var sorted := SortWaves(c.waves);
    FirstRunningIsEarliest(sorted, now);
    forall t ensures StartingAt(sorted, t) == StartingAt(c.waves, t) { SortIsStable(c.waves, t); }
    assert forall w :: w in sorted <==> w in multiset(sorted);
    assert forall w :: w in c.waves <==> w in multiset(c.waves);
  }
}
