/** Collections of Popolo records: an ordered list of records plus an index from each
    record's key to a record, with order-preserving filters and single-record lookup. */
module Collections {
  import opened Wrappers
  import opened Json
  import Base
  import opened Models

  /** `lookup_from_key` as filled by inserting the records in list order. */
  function KeyIndex(kind: Kind, s: seq<Data>): (r: map<Value, Data>)
    ensures |r| <= |s|
  {
    if s == [] then map[]
    else KeyIndex(kind, s[..|s| - 1])[KeyForHash(kind, s[|s| - 1]) := s[|s| - 1]]
  }

  /** Every record's key is indexed, and each key leads to a record of the list that has
      that key. */
  lemma {:induction false} KeyIndexCovers(kind: Kind, s: seq<Data>)
    ensures forall i :: 0 <= i < |s| ==> KeyForHash(kind, s[i]) in KeyIndex(kind, s)
    ensures forall k :: k in KeyIndex(kind, s) ==> KeyIndex(kind, s)[k] in s && KeyForHash(kind, KeyIndex(kind, s)[k]) == k
  {
    if s != [] {
      var init := s[..|s| - 1];
      KeyIndexCovers(kind, init);
      assert forall x :: x in init ==> x in s;
      assert forall i :: 0 <= i < |init| ==> init[i] == s[i];
    }
  }

  /** When keys repeat, the later record wins. */
  lemma {:induction false} KeyIndexLastWins(kind: Kind, s: seq<Data>, i: nat)
    requires i < |s| && LastWithKey(kind, s, i)
    ensures KeyForHash(kind, s[i]) in KeyIndex(kind, s) && KeyIndex(kind, s)[KeyForHash(kind, s[i])] == s[i]
  {
    var init := s[..|s| - 1];
    if i < |s| - 1 {
      assert init[i] == s[i];
      assert LastWithKey(kind, init, i);
      KeyIndexLastWins(kind, init, i);
    }
  }

  /** No later record has the same key as record `i`. */
  predicate LastWithKey(kind: Kind, s: seq<Data>, i: nat)
    requires i < |s|
  {
    forall j :: i < j < |s| ==> KeyForHash(kind, s[j]) != KeyForHash(kind, s[i])
  }

  /** `all(getattr(o, k) == v for k, v in kwargs.items())` on plain attributes. */
  predicate MatchesCriteria(d: Data, criteria: map<string, Value>) {
    forall k :: k in criteria ==> Get(d, k) == criteria[k]
  }

  /** The data of the records `filter` keeps, in their original order. */
  function FilterData(s: seq<Data>, criteria: map<string, Value>): (r: seq<Data>)
    ensures |r| <= |s|
    ensures forall x :: x in r <==> x in s && MatchesCriteria(x, criteria)
  {
    if s == [] then []
    else (if MatchesCriteria(s[0], criteria) then [s[0]] else []) + FilterData(s[1..], criteria)
  }

  /** Filtering distributes over concatenation, so relative order is kept. */
  lemma {:induction false} FilterConcat(a: seq<Data>, b: seq<Data>, criteria: map<string, Value>)
    ensures FilterData(a + b, criteria) == FilterData(a, criteria) + FilterData(b, criteria)
  {
    if a == [] {
      assert a + b == b;
    } else {
      assert (a + b)[1..] == a[1..] + b;
      FilterConcat(a[1..], b, criteria);
    }
  }

  /** Empty criteria keep every record. */
  lemma {:induction false} FilterNothing(s: seq<Data>)
    ensures FilterData(s, map[]) == s
  {
    if s != [] {
      FilterNothing(s[1..]);
    }
  }

  /** Filtering twice by the same criteria is filtering once. */
  lemma {:induction false} FilterTwice(s: seq<Data>, criteria: map<string, Value>)
    ensures FilterData(FilterData(s, criteria), criteria) == FilterData(s, criteria)
  {
    if s != [] {
      FilterTwice(s[1..], criteria);
      var h := if MatchesCriteria(s[0], criteria) then [s[0]] else [];
      FilterConcat(h, FilterData(s[1..], criteria), criteria);
    }
  }

  /** One surviving record means exactly one matching position. */
  lemma {:induction false} FilterOne(s: seq<Data>, criteria: map<string, Value>)
    requires |FilterData(s, criteria)| == 1
    ensures exists i :: 0 <= i < |s| && s[i] == FilterData(s, criteria)[0] && OnlyMatchAt(s, criteria, i)
  {
    if MatchesCriteria(s[0], criteria) {
      assert FilterData(s[1..], criteria) == [];
      assert OnlyMatchAt(s, criteria, 0) by {
        forall j | 0 < j < |s|
          ensures !MatchesCriteria(s[j], criteria)
        {
          assert s[j] == s[1..][j - 1];
        }
      }
    } else {
      FilterOne(s[1..], criteria);
      var i :| 0 <= i < |s[1..]| && s[1..][i] == FilterData(s[1..], criteria)[0] && OnlyMatchAt(s[1..], criteria, i);
      assert OnlyMatchAt(s, criteria, i + 1) by {
        forall j | 0 <= j < |s| && j != i + 1
          ensures !MatchesCriteria(s[j], criteria)
        {
          if j > 0 {
            assert s[j] == s[1..][j - 1];
          }
        }
      }
    }
  }

  /** Position `i` holds a match and no other position does. */
  predicate OnlyMatchAt(s: seq<Data>, criteria: map<string, Value>, i: nat)
    requires i < |s|
  {
    MatchesCriteria(s[i], criteria)
    && forall j :: 0 <= j < |s| && j != i ==> !MatchesCriteria(s[j], criteria)
  }

  const ElectionCriteria: map<string, Value> := map["classification" := Str("general election")]
  const LegislativePeriodCriteria: map<string, Value> := map["classification" := Str("legislative period")]

  /** The elections and legislative periods of a list of events are exactly its events of
      those classifications, and no event is both. */
  lemma ClassificationFilters(s: seq<Data>)
    ensures forall x :: (x in FilterData(s, ElectionCriteria)
                         <==> x in s && Get(x, "classification") == Str("general election"))
    ensures forall x :: (x in FilterData(s, LegislativePeriodCriteria)
                         <==> x in s && Get(x, "classification") == Str("legislative period"))
    ensures forall x :: !(x in FilterData(s, ElectionCriteria) && x in FilterData(s, LegislativePeriodCriteria))
  {
    assert "general election" != "legislative period";
  }

  datatype IndexError = IndexError(index: int)

  datatype LookupError =
    | DoesNotExist                     // no record matches
    | MultipleObjectsReturned(n: nat)  // `n` > 1 records match

  /** A list of records of one kind, with its key index. */
  class PopoloCollection {
    const kind: Kind
    const objects: seq<Data>
    const lookup: map<Value, Data>

    /** `PopoloCollection.__init__`: one record per item, in order, then the index. */
    constructor (kind: Kind, dataList: seq<Data>)
      ensures this.kind == kind && objects == dataList
      ensures lookup == KeyIndex(kind, dataList)
    {
      var index := map[];
      var i := 0;
      while i < |dataList|
        invariant 0 <= i <= |dataList|
        invariant index == KeyIndex(kind, dataList[..i])
      {
        assert dataList[..i + 1][..i] == dataList[..i];
        index := index[KeyForHash(kind, dataList[i]) := dataList[i]];
        i := i + 1;
      }
      assert dataList[..i] == dataList;
      this.kind := kind;
      objects := dataList;
      lookup := index;
    }

    /** `__len__`. */
    function Length(): (n: nat)
      ensures n == |objects|
    {
      |objects|
    }

    /** `__getitem__` with Python's list indexing: negative indices count from the end. */
    function Item(index: int): (r: Result<Data, IndexError>)
      ensures r.Success? <==> -|objects| <= index < |objects|
      ensures r.Failure? ==> r.error == IndexError(index)
      ensures 0 <= index < |objects| ==> r == Success(objects[index])
    {
      if 0 <= index < |objects| then Success(objects[index])
      else if -|objects| <= index < 0 then Success(objects[index + |objects|])
      else Failure(IndexError(index))
    }

    /** `first`. */
    function FirstObject(): (r: Option<Data>)
      ensures r.None? <==> |objects| == 0
      ensures r.Some? ==> Item(0) == Success(r.value)
    {
      Base.First(objects)
    }

    /** `filter`: a new collection of the same kind holding the matching records in order. */
    method Filter(criteria: map<string, Value>) returns (c: PopoloCollection)
      ensures fresh(c)
      ensures c.kind == kind && c.objects == FilterData(objects, criteria)
      ensures c.lookup == KeyIndex(kind, c.objects)
    {
      var filterList := [];
      var i := 0;
      while i < |objects|
        invariant 0 <= i <= |objects|
        invariant filterList == FilterData(objects[..i], criteria)
      {
        FilterConcat(objects[..i], [objects[i]], criteria);
        assert objects[..i + 1] == objects[..i] + [objects[i]];
        if MatchesCriteria(objects[i], criteria) {
          filterList := filterList + [objects[i]];
        }
        i := i + 1;
      }
      assert objects[..i] == objects;
      c := new PopoloCollection(kind, filterList);
    }

    /** `get`: the one matching record, or DoesNotExist / MultipleObjectsReturned. */
    method Get(criteria: map<string, Value>) returns (r: Result<Data, LookupError>)
      ensures r == Failure(DoesNotExist) <==> forall x :: x in objects ==> !MatchesCriteria(x, criteria)
      ensures r.Failure? && r.error.MultipleObjectsReturned? <==> |FilterData(objects, criteria)| > 1
      ensures r.Failure? && r.error.MultipleObjectsReturned? ==> r.error.n == |FilterData(objects, criteria)|
      ensures r.Success? ==> exists i :: 0 <= i < |objects| && objects[i] == r.value && OnlyMatchAt(objects, criteria, i)
    {
      var matches := Filter(criteria);
      var n := matches.Length();
      if n == 0 {
        return Failure(DoesNotExist);
      } else if n > 1 {
        assert matches.objects[0] in matches.objects;
        return Failure(MultipleObjectsReturned(n));
      }
      FilterOne(objects, criteria);
      assert matches.objects[0] in matches.objects;
      r := Success(matches.objects[0]);
    }

    /** `EventCollection.elections`. */
    method Elections() returns (c: PopoloCollection)
      requires kind == Event
      ensures fresh(c)
      ensures c.kind == Event && c.objects == FilterData(objects, ElectionCriteria)
      ensures c.lookup == KeyIndex(Event, c.objects)
    {
      var electionsList := Filter(ElectionCriteria);
      c := new PopoloCollection(Event, electionsList.objects);
    }

    /** `EventCollection.legislative_periods`. */
    method LegislativePeriods() returns (c: PopoloCollection)
      requires kind == Event
      ensures fresh(c)
      ensures c.kind == Event && c.objects == FilterData(objects, LegislativePeriodCriteria)
      ensures c.lookup == KeyIndex(Event, c.objects)
    {
      var lpsList := Filter(LegislativePeriodCriteria);
      c := new PopoloCollection(Event, lpsList.objects);
    }
  }

  /** A negative index reads the same record as its non-negative counterpart. */
  lemma ItemNegativeIndex(c: PopoloCollection, i: int)
    requires 0 <= i < |c.objects|
    ensures c.Item(i - |c.objects|) == c.Item(i) == Success(c.objects[i])
  {
  }
}
