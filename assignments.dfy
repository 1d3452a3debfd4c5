/** Assignment records and the new list values `handleAssignment` and
    `handleDelete` build with `map`, `filter` and spread. */
module Assignments {
  import opened Vocabulary
  import opened Lists
  import opened Calendar

  /** One planned assignment. `date` is kept beside `week` and `day` for display. */
  datatype Assignment = Assignment(
    id: int,
    week: int,
    day: string,
    date: int,
    task: string,
    team: string,
    spaces: seq<string>)

  /** What every record created through the form satisfies; its id is a clock
      reading, so it is positive. */
  predicate WellFormed(a: Assignment) {
    a.id > 0
    && IsMonday(a.week)
    && a.day in WorkDays
    && a.date == a.week + DayOffset(a.day)
    && a.task in TaskTypes
    && a.team in Teams
    && a.spaces != []
    && NoDup(a.spaces)
    && (forall z :: z in a.spaces ==> z in Spaces)
  }

  function Ids(s: seq<Assignment>): set<int> {
    set a | a in s :: a.id
  }

  /** Some record of the list carries this id. */
  predicate HasId(s: seq<Assignment>, id: int) {
    exists i :: 0 <= i < |s| && s[i].id == id
  }

  predicate UniqueIds(s: seq<Assignment>) {
    forall i, j :: 0 <= i < j < |s| ==> s[i].id != s[j].id
  }

  /** The edit branch of `handleAssignment`: every record whose id is `id` takes
      all of `edit`'s fields but keeps its id; every other record is untouched. */
  function UpdateById(s: seq<Assignment>, id: int, edit: Assignment): (r: seq<Assignment>)
    ensures |r| == |s|
    ensures forall i :: 0 <= i < |s| ==> r[i].id == s[i].id
    ensures forall i :: 0 <= i < |s| && s[i].id != id ==> r[i] == s[i]
    ensures forall i :: 0 <= i < |s| && s[i].id == id ==> r[i] == edit.(id := id)
  {
    if s == [] then []
    else [if s[0].id == id then edit.(id := id) else s[0]] + UpdateById(s[1..], id, edit)
  }

  /** The filter of `handleDelete`: every record with this id is dropped. */
  function RemoveId(s: seq<Assignment>, id: int): (r: seq<Assignment>)
    ensures forall a :: a in r <==> a in s && a.id != id
    ensures |r| <= |s|
  {
    if s == [] then []
    else
      assert s == [s[0]] + s[1..];
      if s[0].id == id then RemoveId(s[1..], id) else [s[0]] + RemoveId(s[1..], id)
  }

  /** An edit keeps the list's set of ids. */
  lemma UpdateKeepsIds(s: seq<Assignment>, id: int, edit: Assignment)
    ensures Ids(UpdateById(s, id, edit)) == Ids(s)
    ensures UniqueIds(s) ==> UniqueIds(UpdateById(s, id, edit))
  {
    var r := UpdateById(s, id, edit);
    forall x | x in Ids(r) ensures x in Ids(s) {
      var a :| a in r && a.id == x;
      var i :| 0 <= i < |r| && r[i] == a;
      assert s[i] in s;
    }
    forall x | x in Ids(s) ensures x in Ids(r) {
      var a :| a in s && a.id == x;
      var i :| 0 <= i < |s| && s[i] == a;
      assert r[i] in r;
    }
  }

  /** Re-submitting a record's own fields under its own id gives the list back,
      provided no other record shares that id. */
  lemma UpdateWithSelf(s: seq<Assignment>, a: Assignment)
    requires a in s && UniqueIds(s)
    ensures UpdateById(s, a.id, a) == s
  {
    var r := UpdateById(s, a.id, a);
    var k :| 0 <= k < |s| && s[k] == a;
    forall i | 0 <= i < |s| ensures r[i] == s[i] {
      if s[i].id == a.id {
        assert i == k;
      }
    }
  }

  /** Deleting an id that is not in the list leaves the list unchanged. */
  lemma {:induction false} RemoveAbsent(s: seq<Assignment>, id: int)
    requires id !in Ids(s)
    ensures RemoveId(s, id) == s
  {
    if s != [] {
      assert s[0] in s;
      assert Ids(s[1..]) <= Ids(s);
      RemoveAbsent(s[1..], id);
    }
  }

  /** Deleting twice is deleting once. */
  lemma RemoveIdempotent(s: seq<Assignment>, id: int)
    ensures RemoveId(RemoveId(s, id), id) == RemoveId(s, id)
  {
    RemoveAbsent(RemoveId(s, id), id);
  }

  /** Deletion works record by record, so the survivors keep their relative order. */
  lemma {:induction false} RemoveConcat(a: seq<Assignment>, b: seq<Assignment>, id: int)
    ensures RemoveId(a + b, id) == RemoveId(a, id) + RemoveId(b, id)
  {
    if a == [] {
      assert a + b == b;
    } else {
      assert (a + b)[0] == a[0];
      assert (a + b)[1..] == a[1..] + b;
      RemoveConcat(a[1..], b, id);
    }
  }

  lemma UniqueIdsCons(a: Assignment, s: seq<Assignment>)
    ensures UniqueIds([a] + s) <==> a.id !in Ids(s) && UniqueIds(s)
  {
    var t := [a] + s;
    assert t[1..] == s;
    if UniqueIds(t) {
      forall b | b in s ensures b.id != a.id {
        var j :| 0 <= j < |s| && s[j] == b;
        assert t[j + 1] == b && t[0] == a;
        assert t[0].id != t[j + 1].id;
      }
      forall i, j | 0 <= i < j < |s| ensures s[i].id != s[j].id {
        assert t[i + 1] == s[i] && t[j + 1] == s[j];
      }
    }
    if a.id !in Ids(s) && UniqueIds(s) {
      forall i, j | 0 <= i < j < |t| ensures t[i].id != t[j].id {
        if i == 0 {
          assert t[j] == s[j - 1];
          assert t[j] in s;
        } else {
          assert t[i] == s[i - 1] && t[j] == s[j - 1];
        }
      }
    }
  }

  /** Deleting keeps ids unique. */
  lemma {:induction false} RemoveKeepsUnique(s: seq<Assignment>, id: int)
    requires UniqueIds(s)
    ensures UniqueIds(RemoveId(s, id))
  {
    if s != [] {
      assert s == [s[0]] + s[1..];
      UniqueIdsCons(s[0], s[1..]);
      RemoveKeepsUnique(s[1..], id);
      if s[0].id != id {
        var rest := RemoveId(s[1..], id);
        assert Ids(rest) <= Ids(s[1..]);
        UniqueIdsCons(s[0], rest);
      }
    }
  }

  /** Appending a record with a fresh id keeps ids unique. */
  lemma AppendKeepsUnique(s: seq<Assignment>, a: Assignment)
    requires UniqueIds(s) && a.id !in Ids(s)
    ensures UniqueIds(s + [a])
    ensures Ids(s + [a]) == Ids(s) + {a.id}
  {
    var t := s + [a];
    forall i, j | 0 <= i < j < |t| ensures t[i].id != t[j].id {
      if j == |s| {
        assert t[i] == s[i];
        assert s[i] in s;
      }
    }
  }
}
