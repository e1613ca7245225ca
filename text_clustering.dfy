/** Grouping texts by cluster label, plus the guards that stop a clusterer
    from being used before it is fitted. K-means itself and the silhouette
    score are outside the model: they are parameters. */
module TextClustering {
  import opened Wrappers
  import opened Tally

  /** `_labels[i]` for the first `|texts|` texts, grouped: each label maps
      to its texts in input order. */
  function Clusters(labels: seq<int>, texts: seq<string>): map<int, seq<string>>
    requires |texts| <= |labels|
  {
    if texts == [] then map[]
    else
      var before := Clusters(labels, texts[..|texts| - 1]);
      var id := labels[|texts| - 1];
      before[id := Members(before, id) + [texts[|texts| - 1]]]
  }

  /** `clusters[id]` of a `defaultdict(list)`: empty for a new label. */
  function Members(clusters: map<int, seq<string>>, id: int): seq<string>
  {
    if id in clusters then clusters[id] else []
  }

  /** The independent reading: the texts labelled `id`, in order. */
  function LabelledWith(labels: seq<int>, texts: seq<string>, id: int): seq<string>
    requires |texts| <= |labels|
  {
    if texts == [] then []
    else
      var last := if labels[|texts| - 1] == id then [texts[|texts| - 1]] else [];
      LabelledWith(labels, texts[..|texts| - 1], id) + last
  }

  /** The sizes of the clusters, as a map. */
  function Sizes(clusters: map<int, seq<string>>): map<int, nat>
  {
    map id | id in clusters :: |clusters[id]|
  }

  /** The keys are exactly the labels at positions `0 .. |texts| - 1`, and
      each cluster holds the texts with its label, in input order and with
      duplicates kept; so no cluster is empty. */
  lemma {:induction false} ClustersAreLabelled(labels: seq<int>, texts: seq<string>)
    requires |texts| <= |labels|
    ensures forall id :: id in Clusters(labels, texts) <==> exists i :: 0 <= i < |texts| && labels[i] == id
    ensures forall id :: id in Clusters(labels, texts) ==>
      Clusters(labels, texts)[id] == LabelledWith(labels, texts, id) && Clusters(labels, texts)[id] != []
    ensures forall id :: id !in Clusters(labels, texts) ==> LabelledWith(labels, texts, id) == []
  {
    if texts != [] {
      var init := texts[..|texts| - 1];
      ClustersAreLabelled(labels, init);
      forall id
        ensures id in Clusters(labels, texts) <==> exists i :: 0 <= i < |texts| && labels[i] == id
      {
        if exists i :: 0 <= i < |texts| && labels[i] == id {
          var i :| 0 <= i < |texts| && labels[i] == id;
          if i < |init| {
            assert id in Clusters(labels, init);
          }
        }
      }
    }
  }

  /** The cluster sizes add up to the number of texts. */
  lemma {:induction false} ClusterSizes(labels: seq<int>, texts: seq<string>)
    requires |texts| <= |labels|
    ensures MapSum(Sizes(Clusters(labels, texts))) == |texts|
  {
    if texts == [] {
      assert Sizes(map[]) == map[];
    } else {
      var init := texts[..|texts| - 1];
      var before := Clusters(labels, init);
      var id := labels[|texts| - 1];
      ClusterSizes(labels, init);
      MapSumUpdate(Sizes(before), id, |Members(before, id)| + 1);
      assert Sizes(Clusters(labels, texts)) == Sizes(before)[id := |Members(before, id)| + 1];
    }
  }

  class TextClusterer {
    const numClusters: int
    /** `_kmeans_model is not None`. */
    var fitted: bool
    /** `_labels`, `None` until `fit`. */
    var labels: Option<seq<int>>

    constructor(numClusters: int := 3)
      ensures this.numClusters == numClusters
      ensures !fitted && labels == None
    {
      this.numClusters := numClusters;
      fitted := false;
      labels := None;
    }

    /** What `fit` leaves behind: a fitted model and its training labels,
        here given by `cluster`, which stands for vectorizing and k-means. */
    method Fit(texts: seq<string>, cluster: seq<string> -> seq<int>)
      modifies this
      ensures fitted && labels == Some(cluster(texts))
    {
      fitted := true;
      labels := Some(cluster(texts));
    }

    /** `predict(texts)`: the not-fitted error before `fit`, otherwise the
        model's labels for the texts. */
    method Predict(texts: seq<string>, predict: seq<string> -> seq<int>) returns (r: Result<seq<int>>)
      ensures r.Failure? <==> !fitted
      ensures r.Failure? ==> r.error == NotFitted
      ensures r.Success? ==> r.value == predict(texts)
    {
      if !fitted {
        return Failure(NotFitted);
      }
      return Success(predict(texts));
    }

    /** `calculate_silhouette_score(texts)`: the not-fitted error unless
        both the model and the labels are there, otherwise the score of the
        stored labels. */
    method CalculateSilhouetteScore(texts: seq<string>, score: (seq<string>, seq<int>) -> real) returns (r: Result<real>)
      ensures r.Failure? <==> !fitted || labels.None?
      ensures r.Failure? ==> r.error == NotFitted
      ensures r.Success? ==> r.value == score(texts, labels.value)
    {
      if !fitted || labels.None? {
        return Failure(NotFitted);
      }
      return Success(score(texts, labels.value));
    }

    /** `get_cluster_info(texts)`: the not-fitted error without labels; a
        text beyond the last label raises an index error; otherwise text `i`
        is appended to the list of label `labels[i]`. */
    method GetClusterInfo(texts: seq<string>) returns (r: Result<map<int, seq<string>>>)
      ensures labels.None? ==> r == Failure(NotFitted)
      ensures labels.Some? && |texts| > |labels.value| ==> r == Failure(IndexOutOfRange)
      ensures labels.Some? && |texts| <= |labels.value| ==> r == Success(Clusters(labels.value, texts))
    {
      if labels.None? {
        return Failure(NotFitted);
      }
      var stored := labels.value;
      var clusters: map<int, seq<string>> := map[];
      var i := 0;
      while i < |texts|
        invariant 0 <= i <= |texts| && i <= |stored|
        invariant clusters == Clusters(stored, texts[..i])
      {
        if i >= |stored| {
          return Failure(IndexOutOfRange);
        }
        var id := stored[i];
        assert texts[..i + 1][..i] == texts[..i];
        clusters := clusters[id := (if id in clusters then clusters[id] else []) + [texts[i]]];
        i := i + 1;
      }
      assert texts[..i] == texts;
      return Success(clusters);
    }
  }
}
