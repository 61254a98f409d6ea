/** util/martini_plugin.go, RequestStatusManager: per-second request
    counters by URI and status, pruned by age and summarised over the last
    one and five minutes. The lock around each method is left out: the
    methods are run one at a time.

    Counts are `nat`: the source's 64-bit unsigned counters would wrap only
    after 2^64 requests in one bucket. */
module RequestStatus {
  import opened Wrappers

  /** The requests of one second to one URI, counted by status. */
  datatype Bucket = Bucket(when: int, uri: string, counts: map<int, nat>)

  /** A URI's merged counts in a summary window. */
  datatype StatusData = StatusData(url: string, counts: map<int, nat>)

  /** halib.RequestStatusResponse: the last-minute and last-five-minutes
      windows; an empty window is the nil list. */
  datatype RequestStatusResponse = RequestStatusResponse(last1: seq<StatusData>, last5: seq<StatusData>)

  /** At most one bucket per (second, URI). */
  ghost predicate Unique(bs: seq<Bucket>)
  {
    forall i, j :: 0 <= i < j < |bs| ==> bs[i].when != bs[j].when || bs[i].uri != bs[j].uri
  }

  // ---------------------------------------------------------------------
  // Append

  /** The first bucket, at or after index `from`, for this second and URI. */
  function FindFrom(bs: seq<Bucket>, when: int, uri: string, from: nat): (r: Option<nat>)
    requires from <= |bs|
    ensures r.Some? ==> from <= r.value < |bs| && bs[r.value].when == when && bs[r.value].uri == uri
    ensures r.Some? ==> forall j :: from <= j < r.value ==> bs[j].when != when || bs[j].uri != uri
    ensures r.None? ==> forall j :: from <= j < |bs| ==> bs[j].when != when || bs[j].uri != uri
    decreases |bs| - from
  {
    if from == |bs| then None
    else if bs[from].when == when && bs[from].uri == uri then Some(from)
    else FindFrom(bs, when, uri, from + 1)
  }

  /** A count raised by one request with this status. */
  function Bump(counts: map<int, nat>, status: int): (c: map<int, nat>)
    ensures c.Keys == counts.Keys + {status}
    ensures c[status] == (if status in counts then counts[status] else 0) + 1
    ensures forall k :: k in counts && k != status ==> c[k] == counts[k]
  {
    if status in counts then counts[status := counts[status] + 1] else counts[status := 1]
  }

  /** The buckets after one request: the bucket of its second and URI
      counts it, or a new bucket is appended at the end. */
  function Appended(bs: seq<Bucket>, when: int, uri: string, status: int): (r: seq<Bucket>)
    ensures |bs| <= |r| <= |bs| + 1
  {
    match FindFrom(bs, when, uri, 0)
    case Some(i) => bs[i := bs[i].(counts := Bump(bs[i].counts, status))]
    case None => bs + [Bucket(when, uri, map[status := 1])]
  }

  /** The sum of a counter map. */
  ghost function MapTotal(m: map<int, nat>): nat
    decreases |m|
  {
    if m.Keys == {} then 0
    else
      SomeKey(m.Keys);
      var k :| k in m.Keys;
      m[k] + MapTotal(m - {k})
  }

  /** A non-empty set of statuses has an element. */
  lemma SomeKey(s: set<int>)
    requires s != {}
    ensures exists k :: k in s
  {
    if forall k :: k !in s {
      assert false;
    }
  }

  /** The sum of every count of every bucket. */
  ghost function Total(bs: seq<Bucket>): nat
  {
    if bs == [] then 0 else Total(bs[..|bs| - 1]) + MapTotal(bs[|bs| - 1].counts)
  }

  lemma {:induction false} MapTotalRemove(m: map<int, nat>, k: int)
    requires k in m
    ensures MapTotal(m) == m[k] + MapTotal(m - {k})
    decreases |m|
  {
    var k' :| k' in m && MapTotal(m) == m[k'] + MapTotal(m - {k'});
    if k' != k {
      var without, without' := m - {k}, m - {k'};
      assert without'[k] == m[k] && without[k'] == m[k'];
      MapTotalRemove(without', k);
      MapTotalRemove(without, k');
      assert without' - {k} == without - {k'};
    }
  }

  lemma BumpTotal(m: map<int, nat>, status: int)
    ensures MapTotal(Bump(m, status)) == MapTotal(m) + 1
  {
    var c := Bump(m, status);
    MapTotalRemove(c, status);
    if status in m {
      MapTotalRemove(m, status);
      assert c - {status} == m - {status};
    } else {
      assert c - {status} == m;
    }
  }

  lemma {:induction false} TotalUpdate(bs: seq<Bucket>, i: nat, b: Bucket)
    requires i < |bs|
    ensures Total(bs[i := b]) + MapTotal(bs[i].counts) == Total(bs) + MapTotal(b.counts)
  {
    var n := |bs| - 1;
    if i < n {
      TotalUpdate(bs[..n], i, b);
      assert bs[i := b][..n] == bs[..n][i := b];
    } else {
      assert bs[i := b][..n] == bs[..n];
    }
  }

  /** Each request adds exactly one to the total count and at most one
      bucket, and keeps one bucket per second and URI. */
  lemma AppendedCounts(bs: seq<Bucket>, when: int, uri: string, status: int)
    requires Unique(bs)
    ensures Unique(Appended(bs, when, uri, status))
    ensures Total(Appended(bs, when, uri, status)) == Total(bs) + 1
  {
    var r := Appended(bs, when, uri, status);
    match FindFrom(bs, when, uri, 0)
    case Some(i) =>
      BumpTotal(bs[i].counts, status);
      TotalUpdate(bs, i, bs[i].(counts := Bump(bs[i].counts, status)));
    case None =>
      assert r[..|bs|] == bs;
      MapTotalRemove(map[status := 1], status);
      assert map[status := 1] - {status} == map[];
  }

  /** The counter of (second, URI, status) after a request: raised by one
      for the request's own key, unchanged for every other. */
  lemma AppendedCount(bs: seq<Bucket>, when: int, uri: string, status: int, i: nat)
    requires Unique(bs) && i < |Appended(bs, when, uri, status)|
    ensures var r := Appended(bs, when, uri, status);
      && (r[i].when == when && r[i].uri == uri ==>
            r[i].counts == Bump(if i < |bs| then bs[i].counts else map[], status))
      && (r[i].when != when || r[i].uri != uri ==> i < |bs| && r[i] == bs[i])
  {
  }

  // ---------------------------------------------------------------------
  // GarbageCollect

  /** A bucket survives collection at `when` when it is at most
      `lifetimeMinutes` minutes old. */
  predicate Fresh(b: Bucket, when: int, lifetimeMinutes: int)
  {
    when - b.when <= lifetimeMinutes * 60
  }

  /** The surviving buckets, in their original order. */
  function Collected(bs: seq<Bucket>, when: int, lifetimeMinutes: int): (r: seq<Bucket>)
    ensures |r| <= |bs|
  {
    if bs == [] then []
    else
      var init := Collected(bs[..|bs| - 1], when, lifetimeMinutes);
      if Fresh(bs[|bs| - 1], when, lifetimeMinutes) then init + [bs[|bs| - 1]] else init
  }

  /** Collection keeps exactly the fresh buckets and one bucket per second
      and URI. */
  lemma {:induction false} CollectedMembers(bs: seq<Bucket>, when: int, lifetimeMinutes: int)
    ensures forall b :: b in Collected(bs, when, lifetimeMinutes) <==> b in bs && Fresh(b, when, lifetimeMinutes)
    ensures Unique(bs) ==> Unique(Collected(bs, when, lifetimeMinutes))
  {
    if bs != [] {
      var init := bs[..|bs| - 1];
      var last := bs[|bs| - 1];
      CollectedMembers(init, when, lifetimeMinutes);
      assert bs == init + [last];
      if Unique(bs) {
        assert Unique(init);
        var c := Collected(init, when, lifetimeMinutes);
        if Fresh(last, when, lifetimeMinutes) {
          var r := c + [last];
          forall i, j | 0 <= i < j < |r|
            ensures r[i].when != r[j].when || r[i].uri != r[j].uri
          {
            if j == |r| - 1 {
              assert r[i] in c;
              var a :| 0 <= a < |init| && init[a] == r[i];
              assert bs[a] == r[i];
            } else {
              assert r[i] == c[i] && r[j] == c[j];
            }
          }
        }
      }
    }
  }

  // ---------------------------------------------------------------------
  // GetStatus

  /** A count, 0 when absent. */
  function Count(m: map<int, nat>, k: int): nat
  {
    if k in m then m[k] else 0
  }

  /** Two counter maps added key by key. */
  function MergeCounts(a: map<int, nat>, c: map<int, nat>): (r: map<int, nat>)
    ensures r.Keys == a.Keys + c.Keys
    ensures forall k :: Count(r, k) == Count(a, k) + Count(c, k)
  {
    map k | k in a.Keys + c.Keys :: Count(a, k) + Count(c, k)
  }

  /** A window after one more bucket: its counts merged into the entry of
      its URI, or a new entry at the end. */
  function AddBucket(window: seq<StatusData>, b: Bucket): (r: seq<StatusData>)
    ensures |r| == |window| + (if Listed(window, b.uri) then 0 else 1)
    ensures forall t :: 0 <= t < |window| ==> r[t].url == window[t].url
    ensures forall t :: 0 <= t < |window| ==>
      r[t].counts == if window[t].url == b.uri then MergeCounts(window[t].counts, b.counts) else window[t].counts
    ensures !Listed(window, b.uri) ==> r[|window|] == StatusData(b.uri, b.counts)
  {
    if exists i :: 0 <= i < |window| && window[i].url == b.uri then
      seq(|window|, i requires 0 <= i < |window| =>
        if window[i].url == b.uri then StatusData(b.uri, MergeCounts(window[i].counts, b.counts)) else window[i])
    else window + [StatusData(b.uri, b.counts)]
  }

  /** Bucket `b` falls in the window of `span` seconds before `fromWhen`. */
  predicate InWindow(b: Bucket, fromWhen: int, span: int)
  {
    fromWhen - b.when <= span
  }

  /** The summary of the buckets in the window, in bucket order. */
  function Summary(bs: seq<Bucket>, fromWhen: int, span: int): seq<StatusData>
  {
    if bs == [] then []
    else
      var init := Summary(bs[..|bs| - 1], fromWhen, span);
      if InWindow(bs[|bs| - 1], fromWhen, span) then AddBucket(init, bs[|bs| - 1]) else init
  }

  /** Some entry of the summary is for URI `u`. */
  ghost predicate Listed(s: seq<StatusData>, u: string)
  {
    exists i :: 0 <= i < |s| && s[i].url == u
  }

  /** Some bucket in the window is for URI `u`. */
  ghost predicate Seen(bs: seq<Bucket>, fromWhen: int, span: int, u: string)
  {
    exists p :: 0 <= p < |bs| && InWindow(bs[p], fromWhen, span) && bs[p].uri == u
  }

  /** The sum of the `k` counts of the window's buckets for URI `uri`. */
  function CountSum(bs: seq<Bucket>, fromWhen: int, span: int, uri: string, k: int): nat
  {
    if bs == [] then 0
    else
      var b := bs[|bs| - 1];
      CountSum(bs[..|bs| - 1], fromWhen, span, uri, k) +
      (if InWindow(b, fromWhen, span) && b.uri == uri then Count(b.counts, k) else 0)
  }

  /** Seeing a URI in a window extended by one bucket. */
  lemma SeenSnoc(bs: seq<Bucket>, fromWhen: int, span: int)
    requires bs != []
    ensures forall u :: Seen(bs, fromWhen, span, u) <==>
      Seen(bs[..|bs| - 1], fromWhen, span, u) ||
      (InWindow(bs[|bs| - 1], fromWhen, span) && bs[|bs| - 1].uri == u)
  {
    var n := |bs| - 1;
    var init := bs[..n];
    forall u
      ensures Seen(bs, fromWhen, span, u) <==>
        Seen(init, fromWhen, span, u) || (InWindow(bs[n], fromWhen, span) && bs[n].uri == u)
    {
      if Seen(bs, fromWhen, span, u) {
        var p :| 0 <= p < |bs| && InWindow(bs[p], fromWhen, span) && bs[p].uri == u;
        if p < n {
          assert init[p] == bs[p];
        }
      }
      if Seen(init, fromWhen, span, u) {
        var p :| 0 <= p < |init| && InWindow(init[p], fromWhen, span) && init[p].uri == u;
        assert bs[p] == init[p];
      }
    }
  }

  /** The summary has one entry per URI with a bucket in the window, and
      each entry's counts are the sums over that URI's buckets. */
  lemma SummaryContents(bs: seq<Bucket>, fromWhen: int, span: int)
    ensures var s := Summary(bs, fromWhen, span);
      && (forall i, j :: 0 <= i < j < |s| ==> s[i].url != s[j].url)
      && (forall u :: Listed(s, u) <==> Seen(bs, fromWhen, span, u))
      && (forall i, k :: 0 <= i < |s| ==> Count(s[i].counts, k) == CountSum(bs, fromWhen, span, s[i].url, k))
  {
    SummaryDistinct(bs, fromWhen, span);
    SummaryListed(bs, fromWhen, span);
    SummaryCounts(bs, fromWhen, span);
  }

  /** No URI has two summary entries. */
  lemma {:induction false} SummaryDistinct(bs: seq<Bucket>, fromWhen: int, span: int)
    ensures forall i, j :: 0 <= i < j < |Summary(bs, fromWhen, span)| ==>
      Summary(bs, fromWhen, span)[i].url != Summary(bs, fromWhen, span)[j].url
  {
    if bs != [] {
      var n := |bs| - 1;
      var b := bs[n];
      SummaryDistinct(bs[..n], fromWhen, span);
      var s0 := Summary(bs[..n], fromWhen, span);
      if InWindow(b, fromWhen, span) {
        var s := AddBucket(s0, b);
        assert Summary(bs, fromWhen, span) == s;
        forall i, j | 0 <= i < j < |s|
          ensures s[i].url != s[j].url
        {
          if j == |s0| {
            assert !Listed(s0, b.uri) && s[j].url == b.uri;
            assert s[i].url == s0[i].url;
          } else {
            assert s0[i].url != s0[j].url;
          }
        }
      }
    }
  }

  /** A URI has a summary entry exactly when some bucket in the window is for it. */
  lemma {:induction false} SummaryListed(bs: seq<Bucket>, fromWhen: int, span: int)
    ensures forall u :: Listed(Summary(bs, fromWhen, span), u) <==> Seen(bs, fromWhen, span, u)
  {
    if bs != [] {
      var n := |bs| - 1;
      var b := bs[n];
      SummaryListed(bs[..n], fromWhen, span);
      SeenSnoc(bs, fromWhen, span);
      var s0 := Summary(bs[..n], fromWhen, span);
      if InWindow(b, fromWhen, span) {
        var s := AddBucket(s0, b);
        assert Summary(bs, fromWhen, span) == s;
        forall u
          ensures Listed(s, u) <==> Listed(s0, u) || u == b.uri
        {
          if Listed(s, u) {
            var i :| 0 <= i < |s| && s[i].url == u;
            if i < |s0| {
              assert s0[i].url == u;
            }
          }
          if Listed(s0, u) {
            var i :| 0 <= i < |s0| && s0[i].url == u;
            assert s[i].url == u;
          } else if u == b.uri {
            assert s[|s0|].url == u;
          }
        }
      }
    }
  }

  /** Each summary entry's counts are the sums over its URI's buckets. */
  lemma {:induction false} SummaryCounts(bs: seq<Bucket>, fromWhen: int, span: int)
    ensures forall i, k :: 0 <= i < |Summary(bs, fromWhen, span)| ==>
      Count(Summary(bs, fromWhen, span)[i].counts, k) == CountSum(bs, fromWhen, span, Summary(bs, fromWhen, span)[i].url, k)
  {
    if bs != [] {
      var n := |bs| - 1;
      var init := bs[..n];
      var b := bs[n];
      SummaryCounts(init, fromWhen, span);
      var s0 := Summary(init, fromWhen, span);
      var s := Summary(bs, fromWhen, span);
      forall i, k | 0 <= i < |s|
        ensures Count(s[i].counts, k) == CountSum(bs, fromWhen, span, s[i].url, k)
      {
        var u := s[i].url;
        CountSumSnoc(bs, fromWhen, span, u, k);
        if i < |s0| {
          assert u == s0[i].url;
          assert Count(s0[i].counts, k) == CountSum(init, fromWhen, span, u, k);
        } else {
          assert InWindow(b, fromWhen, span) && !Listed(s0, b.uri) && s[i] == StatusData(b.uri, b.counts);
          SummaryListed(init, fromWhen, span);
          CountSumAbsent(init, fromWhen, span, b.uri, k);
        }
      }
    }
  }

  /** The sum over a window extended by one bucket. */
  lemma CountSumSnoc(bs: seq<Bucket>, fromWhen: int, span: int, uri: string, k: int)
    requires bs != []
    ensures var b := bs[|bs| - 1];
      CountSum(bs, fromWhen, span, uri, k) ==
        CountSum(bs[..|bs| - 1], fromWhen, span, uri, k) + (if InWindow(b, fromWhen, span) && b.uri == uri then Count(b.counts, k) else 0)
  {
  }

  /** A URI with no bucket in the window sums to zero. */
  lemma {:induction false} CountSumAbsent(bs: seq<Bucket>, fromWhen: int, span: int, uri: string, k: int)
    requires !Seen(bs, fromWhen, span, uri)
    ensures CountSum(bs, fromWhen, span, uri, k) == 0
  {
    if bs != [] {
      SeenSnoc(bs, fromWhen, span);
      CountSumAbsent(bs[..|bs| - 1], fromWhen, span, uri, k);
    }
  }

  /** URI `u` is seen in the window before URI `v` is first seen. */
  ghost predicate FirstSeenBefore(bs: seq<Bucket>, fromWhen: int, span: int, u: string, v: string)
  {
    exists p :: 0 <= p < |bs| && InWindow(bs[p], fromWhen, span) && bs[p].uri == u &&
      forall q :: 0 <= q <= p ==> !(InWindow(bs[q], fromWhen, span) && bs[q].uri == v)
  }

  lemma FirstSeenSnoc(bs: seq<Bucket>, fromWhen: int, span: int, u: string, v: string)
    requires bs != [] && FirstSeenBefore(bs[..|bs| - 1], fromWhen, span, u, v)
    ensures FirstSeenBefore(bs, fromWhen, span, u, v)
  {
    var init := bs[..|bs| - 1];
    var p :| 0 <= p < |init| && InWindow(init[p], fromWhen, span) && init[p].uri == u &&
      forall q :: 0 <= q <= p ==> !(InWindow(init[q], fromWhen, span) && init[q].uri == v);
    assert bs[p] == init[p];
    assert forall q :: 0 <= q <= p ==> bs[q] == init[q];
  }

  /** Summary entries come in the order their URIs first appear in the window. */
  lemma {:induction false} SummaryOrder(bs: seq<Bucket>, fromWhen: int, span: int)
    ensures var s := Summary(bs, fromWhen, span);
      forall i, j :: 0 <= i < j < |s| ==> FirstSeenBefore(bs, fromWhen, span, s[i].url, s[j].url)
  {
    if bs != [] {
      var n := |bs| - 1;
      var init := bs[..n];
      var b := bs[n];
      SummaryOrder(init, fromWhen, span);
      assert forall i, j :: 0 <= i < j < |Summary(init, fromWhen, span)| ==>
        FirstSeenBefore(init, fromWhen, span, Summary(init, fromWhen, span)[i].url, Summary(init, fromWhen, span)[j].url);
      SummaryListed(init, fromWhen, span);
      SummaryDistinct(init, fromWhen, span);
      SeenSnoc(bs, fromWhen, span);
      var s0 := Summary(init, fromWhen, span);
      var s := Summary(bs, fromWhen, span);
      assert |s0| <= |s| && forall t :: 0 <= t < |s0| ==> s[t].url == s0[t].url;
      assert forall i, j :: 0 <= i < j < |s0| ==> FirstSeenBefore(init, fromWhen, span, s0[i].url, s0[j].url);
      assert forall u :: Listed(s0, u) <==> Seen(init, fromWhen, span, u);
      forall i, j | 0 <= i < j < |s|
        ensures FirstSeenBefore(bs, fromWhen, span, s[i].url, s[j].url)
      {
        if j < |s0| {
          assert FirstSeenBefore(init, fromWhen, span, s0[i].url, s0[j].url);
          FirstSeenSnoc(bs, fromWhen, span, s[i].url, s[j].url);
        } else {
          // s[j] is the entry appended for b, whose URI the window had not seen
          assert InWindow(b, fromWhen, span) && !Listed(s0, b.uri) && s[j].url == b.uri;
          assert Listed(s0, s0[i].url);
          assert Seen(init, fromWhen, span, s0[i].url);
          assert !Seen(init, fromWhen, span, b.uri);
          assert forall q :: 0 <= q < |init| ==> !(InWindow(init[q], fromWhen, span) && init[q].uri == b.uri);
          var p :| 0 <= p < |init| && InWindow(init[p], fromWhen, span) && init[p].uri == s0[i].url;
          assert bs[p] == init[p];
          forall q | 0 <= q <= p
            ensures !(InWindow(bs[q], fromWhen, span) && bs[q].uri == b.uri)
          {
            assert bs[q] == init[q];
          }
        }
      }
    }
  }

  // ---------------------------------------------------------------------
  // The manager

  class RequestStatusManager {
    var requestStatus: seq<Bucket>

    ghost predicate Valid()
      reads this
    {
      Unique(requestStatus)
    }

    constructor ()
      ensures Valid() && requestStatus == []
    {
      requestStatus := [];
    }

    /** Append: count one request answered at Unix second `when`. */
    method Append(when: int, uri: string, status: int)
      requires Valid()
      modifies this
      ensures Valid()
      ensures requestStatus == Appended(old(requestStatus), when, uri, status)
      ensures Total(requestStatus) == Total(old(requestStatus)) + 1
    {
      AppendedCounts(requestStatus, when, uri, status);
      var found := false;
      var i := 0;
      while i < |requestStatus|
        invariant 0 <= i <= |requestStatus|
        invariant requestStatus == old(requestStatus)
        invariant FindFrom(requestStatus, when, uri, 0) == FindFrom(requestStatus, when, uri, i)
      {
        var b := requestStatus[i];
        if b.when != when {
          i := i + 1;
          continue;
        }
        if b.uri != uri {
          i := i + 1;
          continue;
        }
        found := true;
        requestStatus := requestStatus[i := b.(counts := Bump(b.counts, status))];
        break;
      }
      if !found {
        requestStatus := requestStatus + [Bucket(when, uri, map[status := 1])];
      }
    }

    /** GarbageCollect: drop the buckets older than `lifetimeMinutes`
        minutes at Unix second `when`. */
    method GarbageCollect(when: int, lifetimeMinutes: int)
      requires Valid()
      modifies this
      ensures Valid()
      ensures requestStatus == Collected(old(requestStatus), when, lifetimeMinutes)
    {
      CollectedMembers(requestStatus, when, lifetimeMinutes);
      var newRequestStatus: seq<Bucket> := [];
      for i := 0 to |requestStatus|
        invariant newRequestStatus == Collected(requestStatus[..i], when, lifetimeMinutes)
      {
        assert requestStatus[..i + 1][..i] == requestStatus[..i];
        if when - requestStatus[i].when <= lifetimeMinutes * 60 {
          newRequestStatus := newRequestStatus + [requestStatus[i]];
        }
      }
      assert requestStatus[..|requestStatus|] == requestStatus;
      requestStatus := newRequestStatus;
    }

    /** GetStatus: the one-minute and five-minute summaries at Unix second
        `fromWhen`. The buckets are not changed. */
    method GetStatus(fromWhen: int) returns (resp: RequestStatusResponse)
      ensures resp.last1 == Summary(requestStatus, fromWhen, 60)
      ensures resp.last5 == Summary(requestStatus, fromWhen, 300)
    {
      resp := RequestStatusResponse([], []);
      if |requestStatus| == 0 {
        return;
      }
      var last1, last5 := [], [];
      for i := 0 to |requestStatus|
        invariant last1 == Summary(requestStatus[..i], fromWhen, 60)
        invariant last5 == Summary(requestStatus[..i], fromWhen, 300)
      {
        var b := requestStatus[i];
        assert requestStatus[..i + 1][..i] == requestStatus[..i];
        if fromWhen - b.when <= 60 {
          last1 := Tally(last1, b);
        }
        if fromWhen - b.when <= 300 {
          last5 := Tally(last5, b);
        }
      }
      assert requestStatus[..|requestStatus|] == requestStatus;
      resp := RequestStatusResponse(last1, last5);
    }
  }

  /** The inner loops of GetStatus: merge the bucket's counts into every
      entry of its URI, or append a copy of them. */
  method Tally(window: seq<StatusData>, b: Bucket) returns (out: seq<StatusData>)
    ensures out == AddBucket(window, b)
  {
    out := window;
    var foundURI := false;
    for j := 0 to |out|
      invariant |out| == |window|
      invariant foundURI <==> exists i :: 0 <= i < j && window[i].url == b.uri
      invariant forall i :: 0 <= i < j ==>
        out[i] == (if window[i].url == b.uri then StatusData(b.uri, MergeCounts(window[i].counts, b.counts)) else window[i])
      invariant forall i :: j <= i < |out| ==> out[i] == window[i]
    {
      if out[j].url == b.uri {
        foundURI := true;
        var merged := MergeInto(out[j].counts, b.counts);
        out := out[j := StatusData(out[j].url, merged)];
      }
    }
    if !foundURI {
      var data: map<int, nat> := map[];
      var keys := b.counts.Keys;
      while keys != {}
        invariant keys <= b.counts.Keys
        invariant data == map k | k in b.counts.Keys - keys :: b.counts[k]
        decreases keys
      {
        SomeKey(keys);
        var k :| k in keys;
        data := data[k := b.counts[k]];
        keys := keys - {k};
      }
      assert data == b.counts;
      out := out + [StatusData(b.uri, data)];
    }
  }

  /** Add the counts of `counts` into `into`, key by key. */
  method MergeInto(into: map<int, nat>, counts: map<int, nat>) returns (r: map<int, nat>)
    ensures r == MergeCounts(into, counts)
  {
    r := into;
    var keys := counts.Keys;
    while keys != {}
      invariant keys <= counts.Keys
      invariant r.Keys == into.Keys + (counts.Keys - keys)
      invariant forall k :: k in r ==> r[k] == Count(into, k) + (if k in counts.Keys - keys then counts[k] else 0)
      decreases keys
    {
      SomeKey(keys);
      var k1 :| k1 in keys;
      if k1 in r {
        r := r[k1 := r[k1] + counts[k1]];
      } else {
        r := r[k1 := counts[k1]];
      }
      keys := keys - {k1};
    }
  }
}
