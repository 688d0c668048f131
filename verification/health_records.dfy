/** The record store: an in-memory, ordered list of health readings, newest
    first, together with a loading flag and an error message. Every reducer
    of the store is modelled as a pure function from the old list (or state)
    to the new one; the store itself validates nothing. */
module HealthRecords {
  import opened Wrappers

  /** One set of readings. `notes` is optional: `None` stands for a record
      whose notes are `undefined`. */
  datatype HealthRecord = HealthRecord(
    id: string,
    date: string,
    heartRate: real,
    bloodPressureSystolic: real,
    bloodPressureDiastolic: real,
    glucose: real,
    weight: real,
    height: real,
    notes: Option<string>)

  /** The slice state; `error` is `None` for `null`. */
  datatype State = State(records: seq<HealthRecord>, loading: bool, error: Option<string>)

  /** The actions the slice's reducers accept. */
  datatype Action =
    | Add(record: HealthRecord)
    | Update(record: HealthRecord)
    | Delete(id: string)
    | SetLoading(loading: bool)
    | SetError(error: Option<string>)

  /** Some record of `records` carries `id`. */
  predicate HasId(records: seq<HealthRecord>, id: string) {
    exists i :: 0 <= i < |records| && records[i].id == id
  }

  /** No two records share an id. */
  predicate IdsDistinct(records: seq<HealthRecord>) {
    forall i, j :: 0 <= i < j < |records| ==> records[i].id != records[j].id
  }

  /** How many records carry `id`. */
  function CountId(records: seq<HealthRecord>, id: string): (n: nat)
    ensures n <= |records|
    ensures n == 0 <==> !HasId(records, id)
  {
    if |records| == 0 then 0
    else
      var rest := CountId(records[1..], id);
      assert HasId(records, id) <==> records[0].id == id || HasId(records[1..], id) by {
        if HasId(records, id) {
          var i :| 0 <= i < |records| && records[i].id == id;
          if i > 0 { assert records[1..][i - 1].id == id; }
        }
        if HasId(records[1..], id) {
          var i :| 0 <= i < |records[1..]| && records[1..][i].id == id;
          assert records[i + 1].id == id;
        }
      }
      (if records[0].id == id then 1 else 0) + rest
  }

  /** The seeded state: three readings with ids "1", "2", "3". */
  function InitialState(): (s: State)
    ensures |s.records| == 3
    ensures s.records[0].id == "1" && s.records[1].id == "2" && s.records[2].id == "3"
    ensures IdsDistinct(s.records)
    ensures !s.loading && s.error == None
  {
    State(
      [ HealthRecord("1", "2025-01-01", 72.0, 120.0, 80.0, 95.0, 70.0, 175.0, Some("Feeling good")),
        HealthRecord("2", "2025-01-05", 75.0, 118.0, 78.0, 92.0, 69.5, 175.0, Some("Morning checkup")),
        HealthRecord("3", "2025-01-10", 68.0, 122.0, 82.0, 98.0, 70.2, 175.0, Some("After exercise")) ],
      false,
      None)
  }

  /** `addRecord`: the record goes in front of the list; no id check. */
  function AddRecord(records: seq<HealthRecord>, record: HealthRecord): (result: seq<HealthRecord>)
    ensures |result| == |records| + 1
    ensures result[0] == record
    ensures forall i :: 0 <= i < |records| ==> result[i + 1] == records[i]
  {
    [record] + records
  }

  /** `Array.prototype.findIndex` with an id test: the first index whose
      record carries `id`, or -1. */
  function FindIndex(records: seq<HealthRecord>, id: string): (k: int)
    ensures -1 <= k < |records|
    ensures k == -1 <==> !HasId(records, id)
    ensures 0 <= k ==> records[k].id == id
    ensures 0 <= k ==> forall j :: 0 <= j < k ==> records[j].id != id
  {
    if |records| == 0 then -1
    else if records[0].id == id then 0
    else
      var k := FindIndex(records[1..], id);
      if k == -1 then
        assert !HasId(records, id) by {
          forall i | 0 <= i < |records|
            ensures records[i].id != id
          {
            if i > 0 { assert records[i] == records[1..][i - 1]; }
          }
        }
        -1
      else
        assert records[k + 1] == records[1..][k];
        k + 1
  }

  /** `updateRecord`: the first record carrying the payload's id is replaced
      in place; when there is none the list is left as it was. */
  function UpdateRecord(records: seq<HealthRecord>, record: HealthRecord): (result: seq<HealthRecord>)
    ensures |result| == |records|
    ensures !HasId(records, record.id) ==> result == records
    ensures HasId(records, record.id) ==>
      var k := FindIndex(records, record.id);
      && result[k] == record
      && forall j :: 0 <= j < |records| && j != k ==> result[j] == records[j]
  {
    var k := FindIndex(records, record.id);
    if k != -1 then records[k := record] else records
  }

  /** `deleteRecord`: keeps exactly the records whose id differs from `id`. */
  function DeleteRecord(records: seq<HealthRecord>, id: string): (result: seq<HealthRecord>)
    ensures |result| == |records| - CountId(records, id)
    ensures !HasId(result, id)
    ensures forall r :: r in result <==> r in records && r.id != id
    ensures !HasId(records, id) ==> result == records
  {
    if |records| == 0 then []
    else
      var rest := DeleteRecord(records[1..], id);
      assert records == [records[0]] + records[1..];
      if records[0].id == id then rest
      else
        var result := [records[0]] + rest;
        assert !HasId(result, id) by {
          forall i | 0 <= i < |result|
            ensures result[i].id != id
          {
            if i > 0 { assert result[i] == rest[i - 1]; }
          }
        }
        result
  }

  /** The slice reducer: each action changes only the part of the state it
      is about. */
  function Reduce(s: State, a: Action): (t: State)
    ensures a.Add? ==> t.records == AddRecord(s.records, a.record)
    ensures a.Update? ==> t.records == UpdateRecord(s.records, a.record)
    ensures a.Delete? ==> t.records == DeleteRecord(s.records, a.id)
    ensures a.SetLoading? || a.SetError? ==> t.records == s.records
    ensures a.SetLoading? ==> t.loading == a.loading
    ensures a.SetError? ==> t.error == a.error
    ensures !a.SetLoading? ==> t.loading == s.loading
    ensures !a.SetError? ==> t.error == s.error
  {
    match a
    case Add(r) => s.(records := AddRecord(s.records, r))
    case Update(r) => s.(records := UpdateRecord(s.records, r))
    case Delete(id) => s.(records := DeleteRecord(s.records, id))
    case SetLoading(b) => s.(loading := b)
    case SetError(e) => s.(error := e)
  }

  // ---------------------------------------------------------------------
  // Lemmas about the reducers

  /** Adding keeps ids distinct exactly when the new id is fresh. */
  lemma AddDistinctIff(records: seq<HealthRecord>, record: HealthRecord)
    ensures IdsDistinct(AddRecord(records, record)) <==> IdsDistinct(records) && !HasId(records, record.id)
  {
  }

  /** Updating never makes two ids equal. */
  lemma UpdateKeepsDistinct(records: seq<HealthRecord>, record: HealthRecord)
    requires IdsDistinct(records)
    ensures IdsDistinct(UpdateRecord(records, record))
  {
  }

  /** Deleting never makes two ids equal. */
  lemma {:induction false} DeleteKeepsDistinct(records: seq<HealthRecord>, id: string)
    requires IdsDistinct(records)
    ensures IdsDistinct(DeleteRecord(records, id))
  {
    if |records| > 0 {
      var rest := DeleteRecord(records[1..], id);
      assert IdsDistinct(records[1..]) by {
        forall i, j | 0 <= i < j < |records[1..]|
          ensures records[1..][i].id != records[1..][j].id
        {
          assert records[1..][i] == records[i + 1] && records[1..][j] == records[j + 1];
        }
      }
      DeleteKeepsDistinct(records[1..], id);
      if records[0].id != id {
        var result := [records[0]] + rest;
        forall i, j | 0 <= i < j < |result|
          ensures result[i].id != result[j].id
        {
          if i == 0 {
            assert result[j] == rest[j - 1];
            assert rest[j - 1] in records[1..];
            var m :| 0 <= m < |records[1..]| && records[1..][m] == rest[j - 1];
            assert records[m + 1] == rest[j - 1];
          } else {
            assert result[i] == rest[i - 1] && result[j] == rest[j - 1];
          }
        }
      }
    }
  }

  /** `pos` embeds `sub` into `full` in order: position `i` of `sub` holds
      the record at position `pos[i]` of `full`, and positions strictly increase. */
  predicate Embeds(sub: seq<HealthRecord>, full: seq<HealthRecord>, pos: seq<nat>) {
    && |pos| == |sub|
    && (forall i :: 0 <= i < |pos| ==> pos[i] < |full| && sub[i] == full[pos[i]])
    && (forall i, j :: 0 <= i < j < |pos| ==> pos[i] < pos[j])
  }

  /** Every position, moved one place to the right. */
  function Shift(pos: seq<nat>): (shifted: seq<nat>)
    ensures |shifted| == |pos|
    ensures forall i :: 0 <= i < |pos| ==> shifted[i] == pos[i] + 1
    ensures forall k :: k in pos ==> k + 1 in shifted
  {
    var shifted := seq(|pos|, i requires 0 <= i < |pos| => pos[i] + 1);
    assert forall k :: k in pos ==> k + 1 in shifted by {
      forall k | k in pos
        ensures k + 1 in shifted
      {
        var m :| 0 <= m < |pos| && pos[m] == k;
        assert shifted[m] == k + 1;
      }
    }
    shifted
  }

  /** An embedding into the tail of a list is an embedding into the list. */
  lemma EmbedsShift(sub: seq<HealthRecord>, full: seq<HealthRecord>, pos: seq<nat>)
    requires |full| > 0 && Embeds(sub, full[1..], pos)
    ensures Embeds(sub, full, Shift(pos))
  {
  }

  /** An embedding that avoids position 0 extends to one of the head followed by `sub`. */
  lemma EmbedsCons(sub: seq<HealthRecord>, full: seq<HealthRecord>, pos: seq<nat>)
    requires |full| > 0 && Embeds(sub, full, pos)
    requires forall i :: 0 <= i < |pos| ==> pos[i] > 0
    ensures Embeds([full[0]] + sub, full, [0] + pos)
  {
  }

  /** Deletion returns the kept records in their original relative order:
      `pos` embeds the result into the input in order, and every position
      whose record does not carry `id` is used. */
  lemma {:induction false} DeleteKeepsOrder(records: seq<HealthRecord>, id: string) returns (pos: seq<nat>)
    ensures Embeds(DeleteRecord(records, id), records, pos)
    ensures forall k :: 0 <= k < |records| && records[k].id != id ==> k in pos
  {
    if |records| == 0 {
      pos := [];
    } else {
      var tail := records[1..];
      var tailPos := DeleteKeepsOrder(tail, id);
      var rest := DeleteRecord(tail, id);
      var shifted := Shift(tailPos);
      EmbedsShift(rest, records, tailPos);
      forall k | 1 <= k < |records| && records[k].id != id
        ensures k in shifted
      {
        assert tail[k - 1] == records[k];
        assert k - 1 in tailPos;
      }
      if records[0].id == id {
        assert DeleteRecord(records, id) == rest;
        pos := shifted;
        forall k | 0 <= k < |records| && records[k].id != id
          ensures k in pos
        {
          assert k != 0;
        }
      } else {
        assert DeleteRecord(records, id) == [records[0]] + rest;
        EmbedsCons(rest, records, shifted);
        pos := [0] + shifted;
        forall k | 0 <= k < |records| && records[k].id != id
          ensures k in pos
        {
          if k == 0 { assert pos[0] == 0; } else { assert k in shifted; }
        }
      }
    }
  }

  /** Deleting the same id twice is the same as deleting it once. */
  lemma DeleteIdempotent(records: seq<HealthRecord>, id: string)
    ensures DeleteRecord(DeleteRecord(records, id), id) == DeleteRecord(records, id)
  {
  }

  /** In a list with distinct ids an id occurs at most once. */
  lemma {:induction false} DistinctCountAtMostOne(records: seq<HealthRecord>, id: string)
    requires IdsDistinct(records)
    ensures CountId(records, id) <= 1
  {
    if |records| > 0 {
      assert IdsDistinct(records[1..]) by {
        forall i, j | 0 <= i < j < |records[1..]|
          ensures records[1..][i].id != records[1..][j].id
        {
          assert records[1..][i] == records[i + 1] && records[1..][j] == records[j + 1];
        }
      }
      DistinctCountAtMostOne(records[1..], id);
      if records[0].id == id {
        assert !HasId(records[1..], id) by {
          forall i | 0 <= i < |records[1..]|
            ensures records[1..][i].id != id
          {
            assert records[1..][i] == records[i + 1];
          }
        }
      }
    }
  }

  /** With distinct ids, deleting a present id shortens the list by exactly one. */
  lemma DeletePresentRemovesOne(records: seq<HealthRecord>, id: string)
    requires IdsDistinct(records)
    requires HasId(records, id)
    ensures |DeleteRecord(records, id)| == |records| - 1
  {
    DistinctCountAtMostOne(records, id);
  }

  /** Adding a record with a fresh id and then deleting that id restores the list. */
  lemma DeleteUndoesAdd(records: seq<HealthRecord>, record: HealthRecord)
    requires !HasId(records, record.id)
    ensures DeleteRecord(AddRecord(records, record), record.id) == records
  {
  }

  /** Updating the record just added replaces it at the head. */
  lemma UpdateAfterAdd(records: seq<HealthRecord>, record: HealthRecord, edited: HealthRecord)
    requires edited.id == record.id
    ensures UpdateRecord(AddRecord(records, record), edited) == AddRecord(records, edited)
  {
  }

  /** Updating twice with the same record is the same as updating once. */
  lemma UpdateIdempotent(records: seq<HealthRecord>, record: HealthRecord)
    ensures UpdateRecord(UpdateRecord(records, record), record) == UpdateRecord(records, record)
  {
  }

  /** An update only touches records carrying its id: deleting that id
      afterwards gives the same list as deleting it straight away. */
  lemma {:induction false} DeleteAfterUpdate(records: seq<HealthRecord>, record: HealthRecord)
    ensures DeleteRecord(UpdateRecord(records, record), record.id) == DeleteRecord(records, record.id)
  {
    if HasId(records, record.id) {
      var k := FindIndex(records, record.id);
      DeleteIgnoresSameIdReplacement(records, k, record);
    }
  }

  /** Replacing a record by one with the same id is invisible to a deletion of that id. */
  lemma {:induction false} DeleteIgnoresSameIdReplacement(records: seq<HealthRecord>, k: nat, record: HealthRecord)
    requires k < |records| && records[k].id == record.id
    ensures DeleteRecord(records[k := record], record.id) == DeleteRecord(records, record.id)
  {
    var updated := records[k := record];
    if k == 0 {
      assert updated[1..] == records[1..];
    } else {
      assert updated[1..] == records[1..][k - 1 := record];
      DeleteIgnoresSameIdReplacement(records[1..], k - 1, record);
    }
  }

  /** The scenario [A, B, C]: delete B gives [A, C]; then add D gives [D, A, C]. */
  lemma DeleteThenAddScenario(a: HealthRecord, b: HealthRecord, c: HealthRecord, d: HealthRecord)
    requires IdsDistinct([a, b, c])
    ensures DeleteRecord([a, b, c], b.id) == [a, c]
    ensures AddRecord(DeleteRecord([a, b, c], b.id), d) == [d, a, c]
  {
  }
}
