/**
 * Result trees and their serialised form.  A result lists its statistics in the order of their
 * names, which is the order of a std::map<std::string, ...>.
 */
module ResultTree {
  datatype Statistics = Statistics(min: real, max: real, mean: real, median: real, sd: real)

  datatype Result = Result(
    name: string, repeat: int, samples: map<string, seq<real>>, statistics: map<string, Statistics>,
    subResults: seq<Result>)

  datatype Metric = Metric(name: string, statistics: Statistics)

  datatype Message = Message(name: string, metrics: seq<Metric>, subResults: seq<Message>)

  // ---------------------------------------------------------------- the order of names

  predicate Before(a: string, b: string) {
    b != "" && (a == "" || a[0] < b[0] || (a[0] == b[0] && Before(a[1..], b[1..])))
  }

  lemma {:induction false} Total(a: string, b: string)
    ensures a == b || Before(a, b) || Before(b, a)
    ensures !(Before(a, b) && Before(b, a)) && !Before(a, a)
  {
    if a != "" && b != "" {
      Total(a[1..], b[1..]);
      Total(a[1..], a[1..]);
      if a[0] == b[0] && a[1..] == b[1..] { assert a == [a[0]] + a[1..] && b == [b[0]] + b[1..]; }
    } else if a != "" {
      Total(a[1..], a[1..]);
    }
  }

  lemma {:induction false} Transitive(a: string, b: string, c: string)
    requires Before(a, b) && Before(b, c)
    ensures Before(a, c)
  {
    if a != "" && a[0] == b[0] == c[0] { Transitive(a[1..], b[1..], c[1..]); }
  }

  predicate First(x: string, keys: set<string>) {
    x in keys && forall y :: y in keys && y != x ==> Before(x, y)
  }

  lemma {:induction false} HasFirst(keys: set<string>)
    requires keys != {}
    ensures exists x :: First(x, keys)
    decreases |keys|
  {
    var z :| z in keys;
    var others := keys - {z};
    assert forall y :: y in keys ==> y == z || y in others;
    if others == {} {
      assert First(z, keys);
    } else {
      HasFirst(others);
      var x :| First(x, others);
      Total(x, z);
      if Before(z, x) {
        forall y | y in keys && y != z ensures Before(z, y) {
          if y != x { Transitive(z, x, y); }
        }
        assert First(z, keys);
      } else {
        assert First(x, keys);
      }
    }
  }

  lemma OneFirst(keys: set<string>)
    ensures forall x, y :: First(x, keys) && First(y, keys) ==> x == y
  {
    forall x, y | First(x, keys) && First(y, keys) ensures x == y { Total(x, y); }
  }

  /** The keys of a map in the order of its traversal. */
  function Sorted(keys: set<string>): (s: seq<string>)
    ensures forall x :: x in s <==> x in keys
    ensures Ascending(s)
    decreases |keys|
  {
    if keys == {} then []
    else
      HasFirst(keys);
      OneFirst(keys);
      var x :| First(x, keys);
      [x] + Sorted(keys - {x})
  }

  predicate Ascending(s: seq<string>) {
    forall i, j :: 0 <= i < j < |s| ==> Before(s[i], s[j])
  }

  /** There is only one order in which a set of names ascends. */
  lemma {:induction false} OneOrder(s: seq<string>, t: seq<string>)
    requires Ascending(s) && Ascending(t) && forall x :: x in s <==> x in t
    ensures s == t
  {
    EmptyTogether(s, t);
    if s != [] {
      assert s[0] in s && t[0] in t;
      var i :| 0 <= i < |t| && t[i] == s[0];
      var j :| 0 <= j < |s| && s[j] == t[0];
      Total(s[0], t[0]);
      assert s[0] == t[0];
      forall x ensures x in s[1..] <==> x in t[1..] {
        TailMembers(s, x);
        TailMembers(t, x);
      }
      OneOrder(s[1..], t[1..]);
    }
  }

  lemma EmptyTogether(s: seq<string>, t: seq<string>)
    requires forall x :: x in s <==> x in t
    ensures s == [] <==> t == []
  {
    if s != [] { assert s[0] in s; }
    if t != [] { assert t[0] in t; }
  }

  lemma TailMembers(s: seq<string>, x: string)
    requires Ascending(s) && s != []
    ensures x in s[1..] <==> x in s && x != s[0]
  {
    Total(s[0], s[0]);
    forall k | 1 <= k < |s| ensures s[k] != s[0] { assert Before(s[0], s[k]); }
    if x in s && x != s[0] {
      var k :| 0 <= k < |s| && s[k] == x;
      assert s[1..][k - 1] == x;
    }
  }

  // ---------------------------------------------------------------- to and from messages

  function MetricsOf(statistics: map<string, Statistics>): seq<Metric> {
    var keys := Sorted(statistics.Keys);
    assert forall i :: 0 <= i < |keys| ==> keys[i] in keys;
    MetricsFor(statistics, keys)
  }

  function ToPb(r: Result): Message {
    Message(r.name, MetricsOf(r.statistics),
            seq(|r.subResults|, i requires 0 <= i < |r.subResults| => ToPb(r.subResults[i])))
  }

  function StatisticsOf(metrics: seq<Metric>): map<string, Statistics> {
    if metrics == [] then map[]
    else
      var m := metrics[|metrics| - 1];
      StatisticsOf(metrics[..|metrics| - 1])[m.name := m.statistics]
  }

  function FromPb(pb: Message): Result {
    Result(pb.name, 1, map[], StatisticsOf(pb.metrics),
           seq(|pb.subResults|, i requires 0 <= i < |pb.subResults| => FromPb(pb.subResults[i])))
  }

  method StoreMetrics(statistics: map<string, Statistics>) returns (metrics: seq<Metric>)
    ensures metrics == MetricsOf(statistics)
  {
    metrics := [];
    var keys := Sorted(statistics.Keys);
    for i := 0 to |keys|
      invariant metrics == MetricsOf(statistics)[..i]
    {
      metrics := metrics + [Metric(keys[i], statistics[keys[i]])];
    }
  }

  /** Result::ToPb, filling the message in place. */
  method Serialise(r: Result) returns (pb: Message)
    ensures pb == ToPb(r)
    decreases r
  {
    var metrics := StoreMetrics(r.statistics);
    var subResults: seq<Message> := [];
    for i := 0 to |r.subResults|
      invariant subResults == ToPb(r).subResults[..i]
    {
      var sub := Serialise(r.subResults[i]);
      subResults := subResults + [sub];
    }
    pb := Message(r.name, metrics, subResults);
  }

  /** Result::FromPb, one SetStatistics and one AddSubResult at a time. */
  method Deserialise(pb: Message) returns (r: Result)
    ensures r == FromPb(pb)
    decreases pb
  {
    r := Result(pb.name, 1, map[], map[], []);
    for i := 0 to |pb.metrics|
      invariant r == Result(pb.name, 1, map[], StatisticsOf(pb.metrics[..i]), [])
    {
      assert pb.metrics[..i + 1][..i] == pb.metrics[..i];
      r := r.(statistics := r.statistics[pb.metrics[i].name := pb.metrics[i].statistics]);
    }
    assert pb.metrics[..|pb.metrics|] == pb.metrics;
    for i := 0 to |pb.subResults|
      invariant r == Result(pb.name, 1, map[], StatisticsOf(pb.metrics), FromPb(pb).subResults[..i])
    {
      var sub := Deserialise(pb.subResults[i]);
      r := r.(subResults := r.subResults + [sub]);
    }
  }

  /** The message has the name, each statistic once under its name, in ascending order, and the children in order. */
  ghost predicate Describes(pb: Message, r: Result) {
    && pb.name == r.name
    && (forall i, j :: 0 <= i < j < |pb.metrics| ==> Before(pb.metrics[i].name, pb.metrics[j].name))
    && (forall x :: x in r.statistics <==> exists i :: 0 <= i < |pb.metrics| && pb.metrics[i].name == x)
    && (forall i :: 0 <= i < |pb.metrics| && pb.metrics[i].name in r.statistics ==>
          pb.metrics[i].statistics == r.statistics[pb.metrics[i].name])
    && |pb.subResults| == |r.subResults|
    && forall i :: 0 <= i < |r.subResults| ==> Describes(pb.subResults[i], r.subResults[i])
  }

  lemma {:induction false} SerialisedDescribes(r: Result)
    ensures Describes(ToPb(r), r)
  {
    var pb, keys := ToPb(r), Sorted(r.statistics.Keys);
    forall x ensures x in r.statistics <==> exists i :: 0 <= i < |pb.metrics| && pb.metrics[i].name == x {
      assert x in r.statistics <==> x in keys;
      if x in keys {
        var i :| 0 <= i < |keys| && keys[i] == x;
        assert pb.metrics[i].name == x;
      }
    }
    forall i | 0 <= i < |r.subResults| ensures Describes(pb.subResults[i], r.subResults[i]) {
      SerialisedDescribes(r.subResults[i]);
    }
  }

  // ---------------------------------------------------------------- the round trip

  /** Same names, same statistics and same children in the same order, at every depth. */
  ghost predicate SameTree(a: Result, b: Result) {
    && a.name == b.name && a.statistics == b.statistics && |a.subResults| == |b.subResults|
    && forall i :: 0 <= i < |a.subResults| ==> SameTree(a.subResults[i], b.subResults[i])
  }

  /** The map that gives each name its statistics, for the first names. */
  function Part(statistics: map<string, Statistics>, names: seq<string>): map<string, Statistics> {
    map x | x in names && x in statistics :: statistics[x]
  }

  function MetricsFor(statistics: map<string, Statistics>, keys: seq<string>): seq<Metric>
    requires forall i :: 0 <= i < |keys| ==> keys[i] in statistics
  {
    seq(|keys|, i requires 0 <= i < |keys| => Metric(keys[i], statistics[keys[i]]))
  }

  lemma {:induction false} PartReadBack(statistics: map<string, Statistics>, keys: seq<string>)
    requires forall i :: 0 <= i < |keys| ==> keys[i] in statistics
    ensures StatisticsOf(MetricsFor(statistics, keys)) == Part(statistics, keys)
  {
    if keys != [] {
      var init, last := keys[..|keys| - 1], keys[|keys| - 1];
      PartReadBack(statistics, init);
      assert MetricsFor(statistics, keys)[..|keys| - 1] == MetricsFor(statistics, init);
      assert keys == init + [last];
      assert Part(statistics, keys) == Part(statistics, init)[last := statistics[last]];
    }
  }

  lemma StatisticsReadBack(statistics: map<string, Statistics>)
    ensures StatisticsOf(MetricsOf(statistics)) == statistics
  {
    var keys := Sorted(statistics.Keys);
    assert forall i :: 0 <= i < |keys| ==> keys[i] in keys;
    assert MetricsOf(statistics) == MetricsFor(statistics, keys);
    PartReadBack(statistics, keys);
    assert forall x :: x in statistics ==> x in keys;
    assert Part(statistics, keys) == statistics;
  }

  /** Reading back a serialised result keeps names, statistics and children; samples and repeat are gone. */
  lemma {:induction false} RoundTrip(r: Result)
    ensures var back := FromPb(ToPb(r)); SameTree(back, r) && back.samples == map[] && back.repeat == 1
  {
    StatisticsReadBack(r.statistics);
    forall i | 0 <= i < |r.subResults| ensures SameTree(FromPb(ToPb(r)).subResults[i], r.subResults[i]) {
      RoundTrip(r.subResults[i]);
    }
  }

  lemma {:induction false} SameTreeSamePb(a: Result, b: Result)
    requires SameTree(a, b)
    ensures ToPb(a) == ToPb(b)
  {
    forall i | 0 <= i < |a.subResults| ensures ToPb(a.subResults[i]) == ToPb(b.subResults[i]) {
      SameTreeSamePb(a.subResults[i], b.subResults[i]);
    }
  }

  /** Serialising again changes nothing. */
  lemma SerialisedAgain(r: Result)
    ensures ToPb(FromPb(ToPb(r))) == ToPb(r)
  {
    RoundTrip(r);
    SameTreeSamePb(FromPb(ToPb(r)), r);
  }

  /** Metrics in ascending order of name, at every depth. */
  ghost predicate Canonical(pb: Message) {
    && Ascending(NamesOf(pb.metrics))
    && forall i :: 0 <= i < |pb.subResults| ==> Canonical(pb.subResults[i])
  }

  function NamesOf(metrics: seq<Metric>): (r: seq<string>)
    ensures |r| == |metrics|
  {
    seq(|metrics|, i requires 0 <= i < |metrics| => metrics[i].name)
  }

  lemma {:induction false} StatisticsOfAscending(metrics: seq<Metric>)
    requires Ascending(NamesOf(metrics))
    ensures forall x :: x in StatisticsOf(metrics) <==> x in NamesOf(metrics)
    ensures forall i :: 0 <= i < |metrics| ==>
      metrics[i].name in StatisticsOf(metrics) && StatisticsOf(metrics)[metrics[i].name] == metrics[i].statistics
  {
    if metrics != [] {
      var n := |metrics| - 1;
      AscendingTail(metrics);
      StatisticsOfAscending(metrics[..n]);
      assert forall i :: 0 <= i < n ==> metrics[..n][i] == metrics[i];
      NamesSplit(metrics);
    }
  }

  lemma NamesSplit(metrics: seq<Metric>)
    requires metrics != []
    ensures var n := |metrics| - 1;
            forall x :: x in NamesOf(metrics) <==> x in NamesOf(metrics[..n]) || x == metrics[n].name
  {
    var n := |metrics| - 1;
    assert NamesOf(metrics) == NamesOf(metrics[..n]) + [metrics[n].name];
  }

  /** Without its last entry an ascending list ascends, and the last name is new. */
  lemma AscendingTail(metrics: seq<Metric>)
    requires metrics != [] && Ascending(NamesOf(metrics))
    ensures var n := |metrics| - 1;
            Ascending(NamesOf(metrics[..n])) && forall i :: 0 <= i < n ==> metrics[i].name != metrics[n].name
  {
    var n := |metrics| - 1;
    var names := NamesOf(metrics);
    assert NamesOf(metrics[..n]) == names[..n];
    forall i | 0 <= i < n ensures metrics[i].name != metrics[n].name {
      assert Before(names[i], names[n]);
      Total(names[i], names[i]);
    }
  }

  lemma MetricsReadBack(metrics: seq<Metric>)
    ensures MetricsOf(StatisticsOf(metrics)) == metrics <==> Ascending(NamesOf(metrics))
  {
    var back := MetricsOf(StatisticsOf(metrics));
    assert NamesOf(back) == Sorted(StatisticsOf(metrics).Keys);
    if Ascending(NamesOf(metrics)) {
      StatisticsOfAscending(metrics);
      OneOrder(NamesOf(metrics), Sorted(StatisticsOf(metrics).Keys));
      forall i | 0 <= i < |metrics| ensures back[i] == metrics[i] {
        assert NamesOf(metrics)[i] == metrics[i].name == NamesOf(back)[i];
      }
    }
  }

  /** Exactly the messages whose metrics ascend are reproduced by reading and serialising. */
  lemma {:induction false} MessageRoundTrip(pb: Message)
    ensures ToPb(FromPb(pb)) == pb <==> Canonical(pb)
  {
    MetricsReadBack(pb.metrics);
    forall i | 0 <= i < |pb.subResults|
      ensures ToPb(FromPb(pb.subResults[i])) == pb.subResults[i] <==> Canonical(pb.subResults[i])
    {
      MessageRoundTrip(pb.subResults[i]);
    }
    var back := ToPb(FromPb(pb));
    assert forall i :: 0 <= i < |pb.subResults| ==> back.subResults[i] == ToPb(FromPb(pb.subResults[i]));
    assert back == pb <==> back.metrics == pb.metrics && back.subResults == pb.subResults;
  }
}
