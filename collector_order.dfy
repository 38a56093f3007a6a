/**
 * The data-collector list of a project: the collectors not deleted, shown as
 * response rows ordered by name and then by display name.
 */
module CollectorOrder {
  import opened Common
  import opened Domain

  /** Ordinal string order: character by character, a proper prefix first. */
  predicate StrLeq(a: string, b: string)
    decreases |a|
  {
    if a == [] then true
    else if b == [] then false
    else if a[0] != b[0] then a[0] < b[0]
    else StrLeq(a[1..], b[1..])
  }

  lemma {:induction false} StrLeqReflexive(a: string)
    ensures StrLeq(a, a)
  {
    if a != [] {
      StrLeqReflexive(a[1..]);
    }
  }

  lemma {:induction false} StrLeqTotal(a: string, b: string)
    ensures StrLeq(a, b) || StrLeq(b, a)
    decreases |a|
  {
    if a != [] && b != [] && a[0] == b[0] {
      StrLeqTotal(a[1..], b[1..]);
    }
  }

  lemma {:induction false} StrLeqTransitive(a: string, b: string, c: string)
    requires StrLeq(a, b) && StrLeq(b, c)
    ensures StrLeq(a, c)
    decreases |a|
  {
    if a != [] && b != [] && c != [] && a[0] == b[0] && b[0] == c[0] {
      StrLeqTransitive(a[1..], b[1..], c[1..]);
    }
  }

  lemma {:induction false} StrLeqAntisymmetric(a: string, b: string)
    requires StrLeq(a, b) && StrLeq(b, a)
    ensures a == b
    decreases |a|
  {
    if a != [] && b != [] {
      StrLeqAntisymmetric(a[1..], b[1..]);
      assert a == [a[0]] + a[1..] && b == [b[0]] + b[1..];
    }
  }

  /** One row of the list, as the client receives it. */
  datatype DataCollectorResponse = DataCollectorResponse(
    id: nat,
    dataCollectorType: DataCollectorType,
    name: string,
    displayName: string,
    phoneNumber: string,
    villageId: nat,
    sex: nat,
    isInTrainingMode: bool,
    supervisorId: nat)

  function ToResponse(dc: DataCollector): DataCollectorResponse
  {
    DataCollectorResponse(dc.id, dc.dataCollectorType, dc.name, dc.displayName, dc.phoneNumber,
                          dc.villageId, dc.sex, dc.isInTrainingMode, dc.supervisorId)
  }

  /** `a` comes no later than `b`: by name, and by display name between equal names. */
  predicate KeyLeq(a: DataCollectorResponse, b: DataCollectorResponse)
  {
    StrLeq(a.name, b.name) && (a.name == b.name ==> StrLeq(a.displayName, b.displayName))
  }

  lemma KeyLeqTotal(a: DataCollectorResponse, b: DataCollectorResponse)
    ensures KeyLeq(a, b) || KeyLeq(b, a)
  {
    StrLeqTotal(a.name, b.name);
    StrLeqTotal(a.displayName, b.displayName);
  }

  lemma KeyLeqTransitive(a: DataCollectorResponse, b: DataCollectorResponse, c: DataCollectorResponse)
    requires KeyLeq(a, b) && KeyLeq(b, c)
    ensures KeyLeq(a, c)
  {
    StrLeqTransitive(a.name, b.name, c.name);
    if a.name == c.name {
      StrLeqAntisymmetric(a.name, b.name);
      StrLeqTransitive(a.displayName, b.displayName, c.displayName);
    }
  }

  predicate Sorted(s: seq<DataCollectorResponse>)
  {
    forall i, j :: 0 <= i < j < |s| ==> KeyLeq(s[i], s[j])
  }

  /** `x` placed before the first row it does not come after. */
  function Insert(x: DataCollectorResponse, s: seq<DataCollectorResponse>): (r: seq<DataCollectorResponse>)
    requires Sorted(s)
    ensures Sorted(r)
    ensures multiset(r) == multiset(s) + multiset{x}
  {
    if s == [] then [x]
    else if KeyLeq(x, s[0]) then
      KeyLeqTransitiveFrom(x, s);
      [x] + s
    else
      KeyLeqTotal(x, s[0]);
      var rest := Insert(x, s[1..]);
      assert s == [s[0]] + s[1..];
      InsertAfterHead(s[0], x, s[1..], rest);
      [s[0]] + rest
  }

  /** A row no later than the head of a sorted sequence is no later than all of it. */
  lemma KeyLeqTransitiveFrom(x: DataCollectorResponse, s: seq<DataCollectorResponse>)
    requires Sorted(s) && s != [] && KeyLeq(x, s[0])
    ensures Sorted([x] + s)
  {
    forall j | 0 < j < |s| ensures KeyLeq(x, s[j]) {
      KeyLeqTransitive(x, s[0], s[j]);
    }
  }

  /** A head no later than every row of a sorted tail keeps the whole sorted. */
  lemma InsertAfterHead(h: DataCollectorResponse, x: DataCollectorResponse, t: seq<DataCollectorResponse>, rest: seq<DataCollectorResponse>)
    requires Sorted([h] + t) && KeyLeq(h, x)
    requires Sorted(rest) && multiset(rest) == multiset(t) + multiset{x}
    ensures Sorted([h] + rest)
  {
    forall j | 0 <= j < |rest| ensures KeyLeq(h, rest[j]) {
      assert rest[j] in multiset(rest);
      if rest[j] != x {
        assert rest[j] in multiset(t);
        var k :| 0 <= k < |t| && t[k] == rest[j];
        assert ([h] + t)[0] == h && ([h] + t)[k + 1] == t[k];
        assert KeyLeq(([h] + t)[0], ([h] + t)[k + 1]);
      }
    }
  }

  /** The rows sorted by name, then display name (insertion sort). */
  function Sort(s: seq<DataCollectorResponse>): (r: seq<DataCollectorResponse>)
    ensures Sorted(r)
    ensures multiset(r) == multiset(s)
  {
    if s == [] then []
    else
      assert s == [s[0]] + s[1..];
      Insert(s[0], Sort(s[1..]))
  }

  /** The project's collectors that are not deleted, as rows, in stored order. */
  function ListedRows(collectors: seq<DataCollector>, projectId: nat): (r: seq<DataCollectorResponse>)
    ensures forall x :: x in r <==> exists i :: 0 <= i < |collectors| && collectors[i].projectId == projectId
                                        && collectors[i].deletedAt.None? && x == ToResponse(collectors[i])
    ensures |r| == |IndicesWhere(collectors, (dc: DataCollector) => dc.projectId == projectId && dc.deletedAt.None?)|
  {
    if collectors == [] then []
    else
      var rest := ListedRows(collectors[1..], projectId);
      assert forall i :: 0 < i < |collectors| ==> collectors[i] == collectors[1..][i - 1];
      IndicesWhereCons(collectors, (dc: DataCollector) => dc.projectId == projectId && dc.deletedAt.None?);
      var dc := collectors[0];
      if dc.projectId == projectId && dc.deletedAt.None? then [ToResponse(dc)] + rest else rest
  }

  /**
   * The list of a project: every collector of the project that is not deleted,
   * once per stored collector, and no other, ordered by name then display name.
   */
  function List(collectors: seq<DataCollector>, projectId: nat): (r: seq<DataCollectorResponse>)
    ensures Sorted(r)
    ensures multiset(r) == multiset(ListedRows(collectors, projectId))
    ensures forall x :: x in r <==> exists i :: 0 <= i < |collectors| && collectors[i].projectId == projectId
                                        && collectors[i].deletedAt.None? && x == ToResponse(collectors[i])
  {
    var rows := ListedRows(collectors, projectId);
    var r := Sort(rows);
    forall x ensures x in r <==> x in rows {
      assert x in r <==> x in multiset(r);
      assert x in rows <==> x in multiset(rows);
    }
    r
  }
}
