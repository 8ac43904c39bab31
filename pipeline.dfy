/**
 * The pre-filter at the start of `PipelineRunner.run_pipeline`: articles are
 * fetched, and only those that have a DOI not yet in the database go on to
 * classification. The DOI of an article is whatever `get_attributes` reports,
 * which this model takes as a function parameter.
 */
module Pipeline {

  /** What `get_attributes(article, [CROSSREF_DOI])` yields for the DOI: whether one was found, and its text. */
  datatype DoiAttribute = DoiAttribute(found: bool, doi: string)

  /** The test of the loop: a DOI was found and the database does not hold it yet. */
  predicate IsNew(attribute: DoiAttribute, existingDois: set<string>) {
    attribute.found && attribute.doi !in existingDois
  }

  /** The articles the loop keeps, in their input order. */
  function Kept<A>(data: seq<A>, existingDois: set<string>, getDoi: A -> DoiAttribute): seq<A>
    decreases |data|
  {
    if data == [] then []
    else
      var last := data[|data| - 1];
      Kept(data[..|data| - 1], existingDois, getDoi)
        + (if IsNew(getDoi(last), existingDois) then [last] else [])
  }

  /** The articles the loop counts as already existing, in their input order. */
  function Rejected<A>(data: seq<A>, existingDois: set<string>, getDoi: A -> DoiAttribute): seq<A>
    decreases |data|
  {
    if data == [] then []
    else
      var last := data[|data| - 1];
      Rejected(data[..|data| - 1], existingDois, getDoi)
        + (if IsNew(getDoi(last), existingDois) then [] else [last])
  }

  /** The positions in `data` of the kept articles, in increasing order. */
  function KeptIndices<A>(data: seq<A>, existingDois: set<string>, getDoi: A -> DoiAttribute): seq<int>
    decreases |data|
  {
    if data == [] then []
    else
      KeptIndices(data[..|data| - 1], existingDois, getDoi)
        + (if IsNew(getDoi(data[|data| - 1]), existingDois) then [|data| - 1] else [])
  }

  /**
   * The filtering loop: `filtered_data` collects the new articles and
   * `already_existing_count` counts the others.
   */
  method FilterNewArticles<A>(data: seq<A>, existingDois: set<string>, getDoi: A -> DoiAttribute)
    returns (filteredData: seq<A>, alreadyExistingCount: nat)
    ensures filteredData == Kept(data, existingDois, getDoi)
    ensures alreadyExistingCount == |Rejected(data, existingDois, getDoi)|
    ensures |filteredData| + alreadyExistingCount == |data|
  {
    filteredData := [];
    alreadyExistingCount := 0;
    for i := 0 to |data|
      invariant filteredData == Kept(data[..i], existingDois, getDoi)
      invariant alreadyExistingCount == |Rejected(data[..i], existingDois, getDoi)|
      invariant |filteredData| + alreadyExistingCount == i
    {
      var article := data[i];
      var doi := getDoi(article);
      if doi.found && doi.doi !in existingDois {
        filteredData := filteredData + [article];
      } else {
        alreadyExistingCount := alreadyExistingCount + 1;
      }
      assert data[..i + 1][..i] == data[..i];
    }
    assert data[..|data|] == data;
  }

  /** Every input article ends up either kept or counted, and nothing else does. */
  lemma {:induction false} Partition<A>(data: seq<A>, existingDois: set<string>, getDoi: A -> DoiAttribute)
    ensures multiset(Kept(data, existingDois, getDoi)) + multiset(Rejected(data, existingDois, getDoi)) == multiset(data)
    decreases |data|
  {
    if data != [] {
      var init := data[..|data| - 1];
      var last := data[|data| - 1];
      Partition(init, existingDois, getDoi);
      assert data == init + [last];
      var k := Kept(init, existingDois, getDoi);
      var r := Rejected(init, existingDois, getDoi);
      if IsNew(getDoi(last), existingDois) {
        calc {
          multiset(Kept(data, existingDois, getDoi)) + multiset(Rejected(data, existingDois, getDoi));
          == { assert Kept(data, existingDois, getDoi) == k + [last]; assert Rejected(data, existingDois, getDoi) == r + []; }
          multiset(k + [last]) + multiset(r + []);
          == multiset(k) + multiset(r) + multiset{last};
          == multiset(init) + multiset{last};
          == multiset(init + [last]);
        }
      } else {
        calc {
          multiset(Kept(data, existingDois, getDoi)) + multiset(Rejected(data, existingDois, getDoi));
          == { assert Kept(data, existingDois, getDoi) == k + []; assert Rejected(data, existingDois, getDoi) == r + [last]; }
          multiset(k + []) + multiset(r + [last]);
          == multiset(k) + multiset(r) + multiset{last};
          == multiset(init) + multiset{last};
          == multiset(init + [last]);
        }
      }
    }
  }

  /** Kept and counted articles together are as many as the input articles. */
  lemma PartitionCount<A>(data: seq<A>, existingDois: set<string>, getDoi: A -> DoiAttribute)
    ensures |Kept(data, existingDois, getDoi)| + |Rejected(data, existingDois, getDoi)| == |data|
  {
    Partition(data, existingDois, getDoi);
    assert |multiset(Kept(data, existingDois, getDoi)) + multiset(Rejected(data, existingDois, getDoi))| == |multiset(data)|;
  }

  /** Every kept article has a DOI that is not in the database. */
  lemma {:induction false} KeptAreNew<A>(data: seq<A>, existingDois: set<string>, getDoi: A -> DoiAttribute)
    ensures forall x :: x in Kept(data, existingDois, getDoi) ==> IsNew(getDoi(x), existingDois)
    decreases |data|
  {
    if data != [] {
      KeptAreNew(data[..|data| - 1], existingDois, getDoi);
    }
  }

  /** Every counted article either has no DOI or one the database already holds. */
  lemma {:induction false} RejectedAreOld<A>(data: seq<A>, existingDois: set<string>, getDoi: A -> DoiAttribute)
    ensures forall x :: x in Rejected(data, existingDois, getDoi) ==>
              !getDoi(x).found || getDoi(x).doi in existingDois
    decreases |data|
  {
    if data != [] {
      RejectedAreOld(data[..|data| - 1], existingDois, getDoi);
    }
  }

  /** The kept positions lie inside the input, and the kept articles are the input articles at those positions. */
  lemma {:induction false} KeptIndicesPick<A>(data: seq<A>, existingDois: set<string>, getDoi: A -> DoiAttribute)
    ensures |KeptIndices(data, existingDois, getDoi)| == |Kept(data, existingDois, getDoi)|
    ensures forall j :: 0 <= j < |KeptIndices(data, existingDois, getDoi)| ==>
              0 <= KeptIndices(data, existingDois, getDoi)[j] < |data|
              && Kept(data, existingDois, getDoi)[j] == data[KeptIndices(data, existingDois, getDoi)[j]]
    decreases |data|
  {
    if data != [] {
      var n := |data|;
      var init := data[..n - 1];
      KeptIndicesPick(init, existingDois, getDoi);
      assert forall i :: 0 <= i < n - 1 ==> init[i] == data[i];
    }
  }

  /** The kept positions strictly increase. */
  lemma {:induction false} KeptIndicesIncrease<A>(data: seq<A>, existingDois: set<string>, getDoi: A -> DoiAttribute)
    ensures forall j, k :: 0 <= j < k < |KeptIndices(data, existingDois, getDoi)| ==>
              KeptIndices(data, existingDois, getDoi)[j] < KeptIndices(data, existingDois, getDoi)[k]
    decreases |data|
  {
    if data != [] {
      var init := data[..|data| - 1];
      KeptIndicesIncrease(init, existingDois, getDoi);
      KeptIndicesPick(init, existingDois, getDoi);
    }
  }

  /** A position is kept exactly when the article there is new. */
  lemma {:induction false} KeptIndicesExact<A>(data: seq<A>, existingDois: set<string>, getDoi: A -> DoiAttribute)
    ensures forall i :: 0 <= i < |data| ==>
              (i in KeptIndices(data, existingDois, getDoi) <==> IsNew(getDoi(data[i]), existingDois))
    decreases |data|
  {
    if data != [] {
      var n := |data|;
      var init := data[..n - 1];
      KeptIndicesExact(init, existingDois, getDoi);
      KeptIndicesPick(init, existingDois, getDoi);
      assert n - 1 !in KeptIndices(init, existingDois, getDoi);
      assert forall i :: 0 <= i < n - 1 ==> init[i] == data[i];
    }
  }

  /**
   * The kept articles are the input articles at strictly increasing
   * positions, and those positions are exactly the ones whose article is new:
   * the filter preserves order and keeps every new article.
   */
  lemma KeptIsOrderedSubsequence<A>(data: seq<A>, existingDois: set<string>, getDoi: A -> DoiAttribute)
    ensures |KeptIndices(data, existingDois, getDoi)| == |Kept(data, existingDois, getDoi)|
    ensures forall j :: 0 <= j < |KeptIndices(data, existingDois, getDoi)| ==>
              0 <= KeptIndices(data, existingDois, getDoi)[j] < |data|
              && Kept(data, existingDois, getDoi)[j] == data[KeptIndices(data, existingDois, getDoi)[j]]
    ensures forall j, k :: 0 <= j < k < |KeptIndices(data, existingDois, getDoi)| ==>
              KeptIndices(data, existingDois, getDoi)[j] < KeptIndices(data, existingDois, getDoi)[k]
    ensures forall i :: 0 <= i < |data| ==>
              (i in KeptIndices(data, existingDois, getDoi) <==> IsNew(getDoi(data[i]), existingDois))
  {
    KeptIndicesPick(data, existingDois, getDoi);
    KeptIndicesIncrease(data, existingDois, getDoi);
    KeptIndicesExact(data, existingDois, getDoi);
  }

  /**
   * The filter does not deduplicate within a batch: a new article occurs in
   * the output as often as in the input, even when several input articles
   * share its DOI.
   */
  lemma NoDedup<A>(data: seq<A>, existingDois: set<string>, getDoi: A -> DoiAttribute, x: A)
    requires IsNew(getDoi(x), existingDois)
    ensures multiset(Kept(data, existingDois, getDoi))[x] == multiset(data)[x]
  {
    Partition(data, existingDois, getDoi);
    RejectedAreOld(data, existingDois, getDoi);
    assert x !in Rejected(data, existingDois, getDoi);
  }
}
