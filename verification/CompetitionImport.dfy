/** The competitions table and its bulk import. */
module CompetitionImport {
  import opened Wrappers
  import opened Entities

  type Table = map<Id, Competition>

  /** Whether the database takes a row. It may refuse for any reason; every theorem holds for every rule. */
  type Rules = (Id, Competition) -> bool

  /** The unique index on wave names within a competition. */
  predicate WaveNamesDistinct(waves: seq<Wave>) {
    forall i, j | 0 <= i < j < |waves| :: waves[i].name != waves[j].name
  }

  /** What the columns and the index ask of a competition. */
  predicate ColumnsTake(id: Id, c: Competition) {
    && |c.name| <= 150
    && -128 <= c.minTeamMembers <= 127 && -128 <= c.maxTeamMembers <= 127
    && (c.whatsappGroupUrl.Some? ==> |c.whatsappGroupUrl.value| <= 500)
    && (forall i | 0 <= i < |c.waves| :: |c.waves[i].name| <= 50 && -100000000.0 < c.waves[i].price < 100000000.0)
    && WaveNamesDistinct(c.waves)
  }

  // ---------- import ----------

  /** One item of an import, with the ids the database gives to its rows. */
  datatype Item = Item(
    newId: Id,
    name: string,
    participantType: Option<ParticipantType>,
    minTeamMembers: int,
    maxTeamMembers: int,
    description: Option<string>,
    requiresSubmission: Option<bool>,
    isActive: Option<bool>,
    waves: Option<seq<Wave>>,
    whatsappGroupUrl: Option<string>)

  function OrOne(n: int): int {
    if n == 0 then 1 else n
  }

  /** The row an item becomes; a flag that is missing counts as false. */
  function FromItem(item: Item): Competition {
    Competition(item.name,
                if item.participantType.Some? then item.participantType.value else Individual,
                OrOne(item.minTeamMembers), OrOne(item.maxTeamMembers), item.description,
                item.requiresSubmission == Some(true), item.isActive == Some(true),
                if item.waves.Some? then item.waves.value else [],
                item.whatsappGroupUrl)
  }

  ghost predicate NameStored(t: Table, name: string) {
    exists c :: c in t && t[c].name == name
  }

  /** The item would be inserted, if the database lets it. */
  ghost predicate IsNew(t: Table, item: Item) {
    item.name != "" && !NameStored(t, item.name)
  }

  /** The table after the items, as long as none breaks the import. */
  ghost function Imported(t: Table, data: seq<Item>): Table {
    if data == [] then t else
    var before := Imported(t, data[..|data| - 1]);
    var item := data[|data| - 1];
    if IsNew(before, item) then before[item.newId := FromItem(item)] else before
  }

  datatype ImportResult = Completed(imported: nat, skipped: nat) | Aborted(at: nat)

  ghost predicate FreshIds(t: Table, data: seq<Item>) {
    && (forall i | 0 <= i < |data| :: data[i].newId !in t)
    && (forall i, j | 0 <= i < j < |data| :: data[i].newId != data[j].newId)
  }

  /** The distinct non-empty names of the items that the table does not hold. */
  ghost function NewNames(t: Table, data: seq<Item>): set<string> {
    set i | 0 <= i < |data| && data[i].name != "" && !NameStored(t, data[i].name) :: data[i].name
  }

  predicate NamelessAt(data: seq<Item>, i: int) {
    0 <= i < |data| && data[i].name == ""
  }

  ghost function Nameless(data: seq<Item>): set<int> {
    set i | 0 <= i < |data| && NamelessAt(data, i)
  }

  /** Every row after an import was there before or has the id of an item. */
  lemma {:induction false} ImportedKeys(t: Table, data: seq<Item>, c: Id)
    requires c in Imported(t, data) && c !in t
    ensures exists i :: 0 <= i < |data| && data[i].newId == c
  {
    if data != [] {
      var n := |data| - 1;
      if c in Imported(t, data[..n]) {
        ImportedKeys(t, data[..n], c);
        var i :| 0 <= i < n && data[..n][i].newId == c;
        assert data[i].newId == c;
      } else {
        assert data[n].newId == c;
      }
    }
  }

  lemma LastIdIsFresh(t: Table, data: seq<Item>)
    requires data != [] && FreshIds(t, data)
    ensures FreshIds(t, data[..|data| - 1])
    ensures data[|data| - 1].newId !in Imported(t, data[..|data| - 1])
  {
    var n := |data| - 1;
    if data[n].newId in Imported(t, data[..n]) {
      ImportedKeys(t, data[..n], data[n].newId);
    }
  }

  lemma InsertStores(t: Table, id: Id, c: Competition, name: string)
    requires id !in t
    ensures NameStored(t[id := c], name) <==> NameStored(t, name) || name == c.name
  {
    var after := t[id := c];
    assert after[id] == c;
    assert forall x | x in t :: after[x] == t[x];
  }

  lemma {:induction false} StoredAfterImport(t: Table, data: seq<Item>, name: string)
    requires FreshIds(t, data)
    ensures NameStored(Imported(t, data), name) <==> NameStored(t, name) || name in NewNames(t, data)
  {
    if data != [] {
      var n := |data| - 1;
      LastIdIsFresh(t, data);
      StoredAfterImport(t, data[..n], name);
      StoredAfterImport(t, data[..n], data[n].name);
      NewNamesGrow(t, data);
      InsertStores(Imported(t, data[..n]), data[n].newId, FromItem(data[n]), name);
    }
  }

  lemma NewNamesGrow(t: Table, data: seq<Item>)
    requires data != []
    ensures
      var item := data[|data| - 1];
      NewNames(t, data) == NewNames(t, data[..|data| - 1]) + if IsNew(t, item) then {item.name} else {}
  {
    var n := |data| - 1;
    var item := data[n];
    assert forall i | 0 <= i < n :: data[..n][i] == data[i];
    forall name | name in NewNames(t, data)
      ensures name in NewNames(t, data[..n]) + if IsNew(t, item) then {item.name} else {}
    {
      var i :| 0 <= i < |data| && data[i].name != "" && !NameStored(t, data[i].name) && data[i].name == name;
      if i < n { assert data[..n][i].name == name; }
    }
    forall name | name in NewNames(t, data[..n]) + if IsNew(t, item) then {item.name} else {}
      ensures name in NewNames(t, data)
    {
      if name in NewNames(t, data[..n]) {
        var i :| 0 <= i < n && IsNew(t, data[..n][i]) && data[..n][i].name == name;
        assert data[i].name == name;
      } else {
        assert data[n].name == name;
      }
    }
  }

  /** The item at `i` is the first of its name, and the table does not hold the name. */
  ghost predicate IsFirst(t: Table, data: seq<Item>, i: int) {
    && 0 <= i < |data| && IsNew(t, data[i])
    && forall j | 0 <= j < i :: data[j].name != data[i].name
  }

  /** The row has the columns of the item: counts of zero become one, flags that are missing false. */
  predicate IsRowOf(c: Competition, item: Item) {
    && c.name == item.name && c.description == item.description && c.whatsappGroupUrl == item.whatsappGroupUrl
    && c.participantType == (match item.participantType case Some(p) => p case None => Individual)
    && c.minTeamMembers == (if item.minTeamMembers == 0 then 1 else item.minTeamMembers)
    && c.maxTeamMembers == (if item.maxTeamMembers == 0 then 1 else item.maxTeamMembers)
    && c.waves == (match item.waves case Some(w) => w case None => [])
    && (c.requiresSubmission <==> item.requiresSubmission == Some(true))
    && (c.isActive <==> item.isActive == Some(true))
  }

  /** The import keeps every old row, adds the first item of each new name under its id, and nothing else. */
  lemma {:induction false} ImportContents(t: Table, data: seq<Item>)
    requires FreshIds(t, data)
    ensures forall c | c in t :: c in Imported(t, data) && Imported(t, data)[c] == t[c]
    ensures forall i | IsFirst(t, data, i) ::
      data[i].newId in Imported(t, data) && IsRowOf(Imported(t, data)[data[i].newId], data[i])
    ensures forall c | c in Imported(t, data) && c !in t :: exists i :: IsFirst(t, data, i) && data[i].newId == c
  {
    if data != [] {
      var n := |data| - 1;
      var item, before := data[n], Imported(t, data[..n]);
      assert forall i | 0 <= i < n :: data[..n][i] == data[i];
      LastIdIsFresh(t, data);
      ImportContents(t, data[..n]);
      StoredAfterImport(t, data[..n], item.name);
      IsNewIffFirst(t, data);
      assert forall i :: i != n ==> (IsFirst(t, data, i) <==> IsFirst(t, data[..n], i));
    }
  }

  /** When an item is reached, it is inserted exactly if it is the first of a new name. */
  lemma IsNewIffFirst(t: Table, data: seq<Item>)
    requires data != [] && FreshIds(t, data)
    ensures IsNew(Imported(t, data[..|data| - 1]), data[|data| - 1]) <==> IsFirst(t, data, |data| - 1)
  {
    var n := |data| - 1;
    var name := data[n].name;
    assert forall i | 0 <= i < n :: data[..n][i] == data[i];
    StoredAfterImport(t, data[..n], name);
    if name in NewNames(t, data[..n]) {
      var i :| 0 <= i < n && data[..n][i].name != "" && !NameStored(t, data[..n][i].name) && data[..n][i].name == name;
      assert data[i].name == name;
    }
  }

  lemma {:induction false} ImportCounts(t: Table, data: seq<Item>)
    requires FreshIds(t, data)
    ensures |Imported(t, data)| == |t| + |NewNames(t, data)|
  {
    if data == [] {
      assert NewNames(t, data) == {};
    } else {
      var n := |data| - 1;
      LastIdIsFresh(t, data);
      ImportCounts(t, data[..n]);
      CountOneMore(t, data);
    }
  }

  lemma CountOneMore(t: Table, data: seq<Item>)
    requires data != [] && FreshIds(t, data)
    ensures
      var n := |data| - 1;
      |NewNames(t, data)| == |NewNames(t, data[..n])| + if IsNew(Imported(t, data[..n]), data[n]) then 1 else 0
  {
    var n := |data| - 1;
    assert forall i | 0 <= i < n :: data[..n][i] == data[i];
    NewNamesGrow(t, data);
    StoredAfterImport(t, data[..n], data[n].name);
  }

  /** Importing the same names again, whatever else the items say, imports nothing. */
  lemma {:induction false} ReimportAddsNothing(t: Table, data: seq<Item>, again: seq<Item>)
    requires FreshIds(t, data)
    requires forall i | 0 <= i < |again| :: exists j :: 0 <= j < |data| && data[j].name == again[i].name
    ensures Imported(Imported(t, data), again) == Imported(t, data)
    ensures NewNames(Imported(t, data), again) == {}
  {
    var after := Imported(t, data);
    forall i | 0 <= i < |again|
      ensures again[i].name == "" || NameStored(after, again[i].name)
    {
      var j :| 0 <= j < |data| && data[j].name == again[i].name;
      StoredAfterImport(t, data, again[i].name);
      if again[i].name != "" && !NameStored(t, again[i].name) {
        assert data[j].name in NewNames(t, data);
      }
    }
    NothingNew(after, again);
  }

  lemma UnstoredIsNew(t: Table, data: seq<Item>)
    ensures forall i | 0 <= i < |data| && IsNew(t, data[i]) :: data[i].name in NewNames(t, data)
  {
  }

  lemma {:induction false} NothingNew(t: Table, data: seq<Item>)
    requires forall i | 0 <= i < |data| :: data[i].name == "" || NameStored(t, data[i].name)
    ensures Imported(t, data) == t && NewNames(t, data) == {}
  {
    if data != [] {
      NothingNew(t, data[..|data| - 1]);
    }
  }

  // ---------- where an import ends ----------

  /** The insert of the item fails, which ends the whole import. */
  ghost predicate BreaksAt(takes: Rules, t: Table, data: seq<Item>, i: int) {
    IsFirst(t, data, i) && !takes(data[i].newId, FromItem(data[i]))
  }

  /** The place of the first failing insert, or the number of items when there is none. */
  ghost function EndOf(takes: Rules, t: Table, data: seq<Item>): (end: nat)
    ensures end <= |data|
    ensures forall i | 0 <= i < end :: !BreaksAt(takes, t, data, i)
    ensures end < |data| ==> BreaksAt(takes, t, data, end)
  {
    if data == [] then 0 else
    var n := |data| - 1;
    assert forall i | 0 <= i < n :: data[..n][i] == data[i];
    assert forall i | 0 <= i < n :: BreaksAt(takes, t, data[..n], i) <==> BreaksAt(takes, t, data, i);
    var end := EndOf(takes, t, data[..n]);
    if end < n || BreaksAt(takes, t, data, n) then end else |data|
  }

  /** One more item: how the counters of the loop move. */
  lemma Prefix(t: Table, data: seq<Item>, i: nat)
    requires i < |data| && FreshIds(t, data)
    ensures
      var before, added := Imported(t, data[..i]), IsNew(Imported(t, data[..i]), data[i]);
      && Imported(t, data[..i + 1]) == (if added then before[data[i].newId := FromItem(data[i])] else before)
      && |NewNames(t, data[..i + 1])| == |NewNames(t, data[..i])| + if added then 1 else 0
    ensures |Nameless(data[..i + 1])| == |Nameless(data[..i])| + if data[i].name == "" then 1 else 0
  {
    var longer := data[..i + 1];
    assert longer[..i] == data[..i] && longer[i] == data[i];
    assert FreshIds(t, longer) by {
      assert forall j | 0 <= j <= i :: longer[j] == data[j];
    }
    CountOneMore(t, longer);
    OneMoreNameless(data, i);
  }

  lemma OneMoreNameless(data: seq<Item>, i: nat)
    requires i < |data|
    ensures |Nameless(data[..i + 1])| == |Nameless(data[..i])| + if data[i].name == "" then 1 else 0
  {
    var before, after := Nameless(data[..i]), Nameless(data[..i + 1]);
    forall j ensures j in after <==> j in before || (j == i && data[i].name == "") {
      if 0 <= j < i {
        assert data[..i + 1][j] == data[j] == data[..i][j];
      } else if j == i {
        assert data[..i + 1][j] == data[i];
      }
    }
    assert after == before + if data[i].name == "" then {i} else {};
  }

  lemma PrefixIsFresh(t: Table, data: seq<Item>, i: nat)
    requires i <= |data| && FreshIds(t, data)
    ensures FreshIds(t, data[..i])
  {
    assert forall j | 0 <= j < i :: data[..i][j] == data[j];
  }

  /** The items of a prefix are first of their names in it exactly as in the whole input. */
  lemma FirstInPrefix(t: Table, data: seq<Item>, i: nat)
    requires i <= |data|
    ensures forall j | 0 <= j < i :: IsFirst(t, data[..i], j) <==> IsFirst(t, data, j)
  {
    assert forall j | 0 <= j < i :: data[..i][j] == data[j];
  }

  /** The database finds the item new when the loop reaches it exactly if it is the first of its name. */
  lemma ReachedIsFirst(t: Table, data: seq<Item>, i: nat)
    requires i < |data| && FreshIds(t, data)
    ensures IsNew(Imported(t, data[..i]), data[i]) <==> IsFirst(t, data, i)
  {
    var longer := data[..i + 1];
    assert longer[..i] == data[..i] && longer[i] == data[i];
    PrefixIsFresh(t, data, i + 1);
    IsNewIffFirst(t, longer);
    FirstInPrefix(t, data, i + 1);
  }

  // ---------- the loop ----------

  /** The first `i` items are done: what the table holds and what the counters say. */
  ghost predicate Reached(takes: Rules, t: Table, data: seq<Item>, i: nat, now: Table, imported: nat, skipped: nat)
    requires i <= |data|
  {
    && now == Imported(t, data[..i])
    && imported == |NewNames(t, data[..i])|
    && imported + skipped + |Nameless(data[..i])| == i
    && forall j | 0 <= j < i :: !BreaksAt(takes, t, data, j)
  }

  lemma StartsAt(takes: Rules, t: Table, data: seq<Item>)
    ensures Reached(takes, t, data, 0, t, 0, 0)
  {
    assert NewNames(t, data[..0]) == {} && Nameless(data[..0]) == {};
  }

  /** One more item: the four ways through the body of the loop. */
  lemma OneMore(takes: Rules, t: Table, data: seq<Item>, i: nat, now: Table, imported: nat, skipped: nat)
    requires i < |data| && FreshIds(t, data) && Reached(takes, t, data, i, now, imported, skipped)
    ensures
      var item := data[i];
      if item.name == "" then Reached(takes, t, data, i + 1, now, imported, skipped)
      else if NameStored(now, item.name) then Reached(takes, t, data, i + 1, now, imported, skipped + 1)
      else if !takes(item.newId, FromItem(item)) then BreaksAt(takes, t, data, i)
      else Reached(takes, t, data, i + 1, now[item.newId := FromItem(item)], imported + 1, skipped)
  {
    Prefix(t, data, i);
    ReachedIsFirst(t, data, i);
  }
}
