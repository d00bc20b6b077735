/** The summation loop of the `/api/:id` handler in server.js: the total
    duration, in whole seconds, of the videos of a playlist. */
module Total {
  import opened Wrappers
  import opened Duration

  /** A video detail record as far as the total needs it: the text of its
      `contentDetails.duration`. */
  datatype Video = Video(duration: string)

  /** Adds two partial totals; a failed one (an exception already thrown)
      makes the sum fail. */
  function Plus(a: Option<nat>, b: Option<nat>): Option<nat>
  {
    if a.Some? && b.Some? then Some(a.value + b.value) else None
  }

  lemma PlusAssociative(x: Option<nat>, y: Option<nat>, z: Option<nat>)
    ensures Plus(Plus(x, y), z) == Plus(x, Plus(y, z))
  {
  }

  lemma PlusExchange(a: Option<nat>, x: Option<nat>, b: Option<nat>)
    ensures Plus(Plus(a, x), b) == Plus(x, Plus(a, b))
  {
  }

  /** The sum of a run of parsed durations, first to last; None as soon as
      one of them failed. */
  function Sum(xs: seq<Option<nat>>): Option<nat>
  {
    if xs == [] then Some(0) else Plus(xs[0], Sum(xs[1..]))
  }

  /** The sum of two consecutive runs is the sum of their sums. */
  lemma {:induction false} SumAppend(xs: seq<Option<nat>>, ys: seq<Option<nat>>)
    ensures Sum(xs + ys) == Plus(Sum(xs), Sum(ys))
    decreases |xs|
  {
    if xs == [] {
      assert xs + ys == ys;
    } else {
      assert (xs + ys)[1..] == xs[1..] + ys;
      assert (xs + ys)[0] == xs[0];
      SumAppend(xs[1..], ys);
      PlusAssociative(xs[0], Sum(xs[1..]), Sum(ys));
    }
  }

  /** f applied to the duration text of each video, in the order of the
      fetched `items` array. */
  function MapDurations(videos: seq<Video>, f: string -> Option<nat>): (ps: seq<Option<nat>>)
    ensures |ps| == |videos|
  {
    if videos == [] then [] else [f(videos[0].duration)] + MapDurations(videos[1..], f)
  }

  lemma {:induction false} MapDurationsAt(videos: seq<Video>, f: string -> Option<nat>, i: nat)
    requires i < |videos|
    ensures MapDurations(videos, f)[i] == f(videos[i].duration)
    decreases i
  {
    if i > 0 {
      MapDurationsAt(videos[1..], f, i - 1);
    }
  }

  lemma {:induction false} MapDurationsAppend(a: seq<Video>, b: seq<Video>, f: string -> Option<nat>)
    ensures MapDurations(a + b, f) == MapDurations(a, f) + MapDurations(b, f)
    decreases |a|
  {
    if a == [] {
      assert a + b == b;
    } else {
      assert (a + b)[1..] == a[1..] + b;
      assert (a + b)[0] == a[0];
      MapDurationsAppend(a[1..], b, f);
      assert MapDurations(a + b, f) == [f(a[0].duration)] + MapDurations(a[1..] + b, f);
    }
  }

  lemma {:induction false} MapDurationsIgnoresOrder(a: seq<Video>, b: seq<Video>, f: string -> Option<nat>)
    requires multiset(a) == multiset(b)
    ensures multiset(MapDurations(a, f)) == multiset(MapDurations(b, f))
    decreases |a|
  {
    if a == [] {
      assert |b| == |multiset(b)| == 0;
    } else {
      assert a[0] in multiset(b);
      var j :| 0 <= j < |b| && b[j] == a[0];
      MultisetWithout(a, b, j);
      MapDurationsIgnoresOrder(a[1..], b[..j] + b[j + 1..], f);
      assert b == b[..j] + ([b[j]] + b[j + 1..]);
      MapDurationsAppend(b[..j], [b[j]] + b[j + 1..], f);
      MapDurationsAppend(b[..j], b[j + 1..], f);
      assert ([b[j]] + b[j + 1..])[1..] == b[j + 1..];
    }
  }

  /** The parsed duration of each video, in the order of the fetched `items`
      array. */
  function Parsed(videos: seq<Video>): (ps: seq<Option<nat>>)
    ensures |ps| == |videos|
  {
    MapDurations(videos, ParseDuration)
  }

  /** The total the handler computes: the sum of the videos' parsed
      durations, or None when some duration makes the loop throw. */
  function TotalSeconds(videos: seq<Video>): Option<nat>
  {
    Sum(Parsed(videos))
  }

  /** One more term at the end of a prefix: the running sum grows by it,
      or the whole sum fails with it. */
  lemma SumPrefixStep(xs: seq<Option<nat>>, i: nat, acc: nat)
    requires i < |xs|
    requires Sum(xs[..i]).Some? && Sum(xs[..i]).value == acc
    ensures xs[i].None? ==> Sum(xs).None?
    ensures xs[i].Some? ==> Sum(xs[..i + 1]).Some? && Sum(xs[..i + 1]).value == acc + xs[i].value
  {
    assert xs[..i + 1] == xs[..i] + [xs[i]];
    SumAppend(xs[..i], [xs[i]]);
    assert Sum([xs[i]]) == Plus(xs[i], Some(0));
    if xs[i].None? {
      assert xs == xs[..i + 1] + xs[i + 1..];
      SumAppend(xs[..i + 1], xs[i + 1..]);
    }
  }

  /** The loop: `totalDuration += parseDuration(video.contentDetails.duration)`
      for each video in the order of `items`, stopping at the first duration that throws. */
  method SumDurations(videos: seq<Video>) returns (total: Option<nat>)
    ensures total == TotalSeconds(videos)
  {
    ghost var ps := Parsed(videos);
    var totalDuration: nat := 0;
    for i := 0 to |videos|
      invariant Sum(ps[..i]).Some? && Sum(ps[..i]).value == totalDuration
    {
      var seconds := ParseDuration(videos[i].duration);
      MapDurationsAt(videos, ParseDuration, i);
      SumPrefixStep(ps, i, totalDuration);
      if seconds.None? {
        return None;
      }
      totalDuration := totalDuration + seconds.value;
    }
    assert ps[..|videos|] == ps;
    return Some(totalDuration);
  }

  /** A sum fails exactly when one of its terms failed. */
  lemma {:induction false} SumFailsIff(xs: seq<Option<nat>>)
    ensures Sum(xs).None? <==> exists i :: 0 <= i < |xs| && xs[i].None?
    decreases |xs|
  {
    if xs != [] {
      SumFailsIff(xs[1..]);
      if xs[0].Some? {
        forall i | 1 <= i < |xs|
          ensures xs[i] == xs[1..][i - 1]
        {
        }
      }
    }
  }

  /** The total fails exactly when some video's duration holds no "PT". */
  lemma TotalFailsIff(videos: seq<Video>)
    ensures TotalSeconds(videos).None? <==>
            exists i :: 0 <= i < |videos| && !ContainsPT(videos[i].duration)
  {
    var ps := Parsed(videos);
    SumFailsIff(ps);
    if TotalSeconds(videos).None? {
      var i :| 0 <= i < |ps| && ps[i].None?;
      MapDurationsAt(videos, ParseDuration, i);
    } else {
      forall i | 0 <= i < |videos|
        ensures ContainsPT(videos[i].duration)
      {
        assert ps[i].Some?;
        MapDurationsAt(videos, ParseDuration, i);
      }
    }
  }

  /** A sum, when there is one, is at least each of its terms. */
  lemma {:induction false} SumBoundsEach(xs: seq<Option<nat>>, i: nat)
    requires i < |xs|
    requires Sum(xs).Some?
    ensures xs[i].Some? && xs[i].value <= Sum(xs).value
    decreases |xs|
  {
    if i > 0 {
      SumBoundsEach(xs[1..], i - 1);
    }
  }

  /** A run of one term sums to that term. */
  lemma SumSingleton(x: Option<nat>)
    ensures Sum([x]) == x
  {
    assert [x][1..] == [];
  }

  /** Taking one term out of the middle of a run. */
  lemma SumWithout(ys: seq<Option<nat>>, j: nat)
    requires j < |ys|
    ensures Sum(ys) == Plus(ys[j], Sum(ys[..j] + ys[j + 1..]))
  {
    var pre, x, post := ys[..j], ys[j], ys[j + 1..];
    assert ys == (pre + [x]) + post;
    SumAppend(pre + [x], post);
    SumAppend(pre, [x]);
    SumSingleton(x);
    assert Sum(ys) == Plus(Plus(Sum(pre), x), Sum(post));
    SumAppend(pre, post);
    PlusExchange(Sum(pre), x, Sum(post));
  }

  lemma MultisetWithout<T>(xs: seq<T>, ys: seq<T>, j: nat)
    requires multiset(xs) == multiset(ys)
    requires xs != [] && j < |ys| && ys[j] == xs[0]
    ensures multiset(xs[1..]) == multiset(ys[..j] + ys[j + 1..])
  {
    assert xs == [xs[0]] + xs[1..];
    assert ys == ys[..j] + [ys[j]] + ys[j + 1..];
    assert multiset(xs[1..]) == multiset(xs) - multiset{xs[0]};
  }

  /** The order of the terms does not matter to a sum. */
  lemma {:induction false} SumIgnoresOrder(xs: seq<Option<nat>>, ys: seq<Option<nat>>)
    requires multiset(xs) == multiset(ys)
    ensures Sum(xs) == Sum(ys)
    decreases |xs|
  {
    if xs == [] {
      assert |ys| == |multiset(ys)| == 0;
    } else {
      assert xs[0] in multiset(ys);
      var j :| 0 <= j < |ys| && ys[j] == xs[0];
      MultisetWithout(xs, ys, j);
      SumIgnoresOrder(xs[1..], ys[..j] + ys[j + 1..]);
      SumWithout(ys, j);
    }
  }

  /** The order of the videos does not matter to the total: the detail
      records may come back from the upstream service in any order. */
  lemma TotalIgnoresOrder(a: seq<Video>, b: seq<Video>)
    requires multiset(a) == multiset(b)
    ensures TotalSeconds(a) == TotalSeconds(b)
  {
    MapDurationsIgnoresOrder(a, b, ParseDuration);
    SumIgnoresOrder(Parsed(a), Parsed(b));
  }

  lemma PlaylistExampleParsed(first: Video, second: Video)
    requires first.duration == "PT1M" && second.duration == "PT2M"
    ensures Parsed([first, second])[0].Some? && Parsed([first, second])[0].value == 60
    ensures Parsed([first, second])[1].Some? && Parsed([first, second])[1].value == 120
  {
    OneMinuteExample();
    MissingComponentExamples();
    MapDurationsAt([first, second], ParseDuration, 0);
    MapDurationsAt([first, second], ParseDuration, 1);
  }

  /** Two videos of one and two minutes: three minutes in all. */
  lemma PlaylistExample(first: Video, second: Video)
    requires first.duration == "PT1M" && second.duration == "PT2M"
    ensures TotalSeconds([first, second]).Some?
    ensures TotalSeconds([first, second]).value == 180
  {
    var ps := Parsed([first, second]);
    PlaylistExampleParsed(first, second);
    assert ps[..0] == [];
    SumPrefixStep(ps, 0, 0);
    SumPrefixStep(ps, 1, 60);
    assert ps[..2] == ps;
  }
}
