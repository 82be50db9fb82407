/**
 What becomes of a window as more items are accepted: an item once dropped never returns,
 so the retained old items followed by the later ones end in the new window.
 */
module WindowGrowth {
  import opened Sequences
  import opened RollingWindow

  lemma {:induction false} SortedAscends<T(!new)>(s: seq<TimedValue<T>>)
    requires Sorted(s)
    ensures Ascends(Less, s) && OneWay(Less, s)
  {
    forall i, j | 0 <= i < j < |s| ensures Less(s[i], s[j]) {
    }
  }

  lemma {:induction false} PrefixWatermark<T(!new)>(accepted: seq<TimedValue<T>>, n: nat)
    requires 0 < n <= |accepted|
    ensures Watermark(accepted[..n]) <= Watermark(accepted)
  {
    WatermarkIsMaximum(accepted[..n]);
    WatermarkIsMaximum(accepted);
    var x :| x in accepted[..n] && x.timestamp == Watermark(accepted[..n]);
    assert x in accepted;
  }

  /** Items with distinct ordinals are ordered one way or the other. */
  lemma {:induction false} OneBeforeTheOther<T(!new)>(accepted: seq<TimedValue<T>>, x: TimedValue<T>, y: TimedValue<T>)
    requires Numbered(accepted) && x in accepted && y in accepted && x != y
    ensures Less(x, y) || Less(y, x)
  {
    var i :| 0 <= i < |accepted| && accepted[i] == x;
    var j :| 0 <= j < |accepted| && accepted[j] == y;
  }

  /** An item still in the window was in it at every moment since it was accepted. */
  lemma {:induction false} StillRetained<T(!new)>(accepted: seq<TimedValue<T>>, n: nat, retention: int, maximum: nat,
                                                  x: TimedValue<T>)
    requires Numbered(accepted) && n <= |accepted|
    requires x in accepted[..n] && x in Window(accepted, retention, maximum)
    ensures x in Window(accepted[..n], retention, maximum)
  {
    var earlier, later := Window(accepted[..n], retention, maximum), Window(accepted, retention, maximum);
    WindowIsNewestItems(accepted[..n], retention, maximum);
    WindowIsNewestItems(accepted, retention, maximum);
    PrefixWatermark(accepted, n);
    assert Live(accepted, retention, x);
    assert Live(accepted[..n], retention, x);
    hide Window, Watermark;
    if x !in earlier {
      forall z | z in earlier ensures Less(x, z) && z in later {
        assert Live(accepted[..n], retention, z);
        OneBeforeTheOther(accepted[..n], x, z);
        assert z in accepted;
      }
      PrependIsSorted(x, earlier);
      SortedAscends([x] + earlier);
      AscendingFits(Less, [x] + earlier, later);
    }
  }

  lemma {:induction false} PrependIsSorted<T(!new)>(x: TimedValue<T>, s: seq<TimedValue<T>>)
    requires Sorted(s) && forall z :: z in s ==> Less(x, z)
    ensures Sorted([x] + s)
  {
    assert forall i :: 0 <= i < |s| ==> s[i] in s;
  }

  /**
   The old window followed by what was appended since and is still retained ends in the new
   window, provided it is in order.
   */
  lemma {:induction false} GrownWindowIsSuffix<T(!new)>(accepted: seq<TimedValue<T>>, n: nat, retention: int,
                                                        maximum: nat)
    returns (k: nat)
    requires NumberedFrom(accepted, 0) && n <= |accepted| && retention > 0 && maximum >= 1
    requires var w := Window(accepted, retention, maximum);
             Sorted(Window(accepted[..n], retention, maximum) + AppendedAfter(accepted, w, n))
    ensures var w := Window(accepted, retention, maximum);
            var candidates := Window(accepted[..n], retention, maximum) + AppendedAfter(accepted, w, n);
            k <= |candidates| && w == candidates[k..]
  {
    var w := Window(accepted, retention, maximum);
    var old', later := Window(accepted[..n], retention, maximum), AppendedAfter(accepted, w, n);
    var candidates := old' + later;
    CandidatesCover(accepted, n, retention, maximum);
    WindowIsNewestItems(accepted, retention, maximum);
    if |w| == 0 {
      k := |candidates|;
    } else {
      assert w[0] in w;
      k :| 0 <= k < |candidates| && candidates[k] == w[0];
      SuffixIsWindow(accepted, w, candidates, k);
    }
  }

  lemma {:induction false} CandidatesCover<T(!new)>(accepted: seq<TimedValue<T>>, n: nat, retention: int, maximum: nat)
    requires NumberedFrom(accepted, 0) && n <= |accepted|
    ensures var w := Window(accepted, retention, maximum);
            var candidates := Window(accepted[..n], retention, maximum) + AppendedAfter(accepted, w, n);
            Within(w, candidates) && Within(candidates, accepted)
  {
    var w := Window(accepted, retention, maximum);
    WindowIsNewestItems(accepted, retention, maximum);
    WindowIsNewestItems(accepted[..n], retention, maximum);
    FilterMembers(Retained(w, n), accepted);
    forall x | x in w ensures x in Window(accepted[..n], retention, maximum) || x in AppendedAfter(accepted, w, n) {
      assert Live(accepted, retention, x);
      var i :| 0 <= i < |accepted| && accepted[i] == x;
      if i < n {
        assert accepted[..n][i] == x;
        StillRetained(accepted, n, retention, maximum, x);
      } else {
        assert Retained(w, n)(x);
      }
    }
    forall x | x in Window(accepted[..n], retention, maximum) ensures x in accepted {
      assert Live(accepted[..n], retention, x);
    }
  }

  lemma {:induction false} SuffixIsWindow<T(!new)>(accepted: seq<TimedValue<T>>, w: seq<TimedValue<T>>,
                                                   candidates: seq<TimedValue<T>>, k: nat)
    requires Sorted(w) && Sorted(candidates) && |w| > 0 && k < |candidates| && candidates[k] == w[0]
    requires Within(w, candidates) && Within(candidates, accepted)
    requires forall x, y :: x in w && y in accepted && Less(x, y) ==> y in w
    ensures w == candidates[k..]
  {
    var tail := candidates[k..];
    forall x | x in tail ensures x in w {
      var j :| 0 <= j < |tail| && tail[j] == x;
      assert candidates[k + j] == x && x in candidates;
      assert w[0] in w && (j > 0 ==> Less(candidates[k], candidates[k + j]));
    }
    forall x | x in w ensures x in tail {
      var i :| 0 <= i < |w| && w[i] == x;
      var j :| 0 <= j < |candidates| && candidates[j] == x;
      assert i > 0 ==> Less(w[0], w[i]);
      SortedPair(candidates, j, k);
      assert tail[j - k] == x;
    }
    assert Sorted(tail);
    SortedAscends(w);
    SortedAscends(tail);
    AscendingUnique(Less, w, tail);
  }
}
