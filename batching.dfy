/**
 * What the partition loop of index.js:56-93 computes, stated without the loop:
 * each listed file leads to one decision (skip it, close the open batch, or
 * take it into the open batch), and the batches are the taken files split at
 * the closes.
 */
module Batching {
  import opened Mails
  import ImageFilter

  /** What the loop does with one listed file. */
  datatype Step = Skip | Close | Take(e: Entry)

  /**
   * The decision for file e when `open` is the batch being filled: a name the
   * filter rejects is skipped; a file that would take the batch over maxSize
   * closes it (and is not kept); any other file is taken (index.js:58-80).
   */
  function StepFor(open: seq<Entry>, e: Entry, maxSize: nat): Step {
    if !ImageFilter.IsImageName(e.name) then Skip
    else if Sum(open) + e.size > maxSize then Close
    else Take(e)
  }

  /**
   * The batches after one more decision: a taken file goes at the end of the
   * last batch, a close starts a new, empty last batch. The last batch is the
   * one still open.
   */
  function Advance(g: seq<seq<Entry>>, x: Step): (g': seq<seq<Entry>>)
    requires |g| >= 1
    ensures |g'| >= 1
  {
    match x
    case Skip => g
    case Close => g + [[]]
    case Take(e) => g[..|g| - 1] + [g[|g| - 1] + [e]]
  }

  /** The batches a run of decisions describes. */
  function Split(s: seq<Step>): (g: seq<seq<Entry>>)
    ensures |g| >= 1
  {
    if s == [] then [[]] else Advance(Split(s[..|s| - 1]), s[|s| - 1])
  }

  /** The decisions for the files of a listing, in listing order. */
  function Steps(l: seq<Entry>, maxSize: nat): (s: seq<Step>)
    ensures |s| == |l|
  {
    if l == [] then []
    else
      var before := Steps(l[..|l| - 1], maxSize);
      var g := Split(before);
      before + [StepFor(g[|g| - 1], l[|l| - 1], maxSize)]
  }

  /** The batch still being filled once the listing l has been read. */
  function Open(l: seq<Entry>, maxSize: nat): seq<Entry> {
    var g := Split(Steps(l, maxSize));
    g[|g| - 1]
  }

  /** The attachment lists of the mails: every closed batch, and the open one unless it is empty. */
  function Batches(l: seq<Entry>, maxSize: nat): seq<seq<Entry>> {
    var g := Split(Steps(l, maxSize));
    if g[|g| - 1] == [] then g[..|g| - 1] else g
  }

  /** The taken files, in order. */
  function Taken(s: seq<Step>): seq<Entry> {
    if s == [] then []
    else Taken(s[..|s| - 1]) + (if s[|s| - 1].Take? then [s[|s| - 1].e] else [])
  }

  /** The number of closes. */
  function Closes(s: seq<Step>): nat {
    if s == [] then 0 else Closes(s[..|s| - 1]) + (if s[|s| - 1] == Close then 1 else 0)
  }

  lemma {:induction false} StepsExtend(l: seq<Entry>, i: nat, maxSize: nat)
    requires i < |l|
    ensures Steps(l[..i + 1], maxSize) == Steps(l[..i], maxSize) + [StepFor(Open(l[..i], maxSize), l[i], maxSize)]
  {
    assert l[..i + 1][..i] == l[..i];
  }

  /** The decision for the i-th file depends on the batch open when it arrives. */
  lemma {:induction false} StepAt(l: seq<Entry>, i: nat, maxSize: nat)
    requires i < |l|
    ensures Steps(l, maxSize)[i] == StepFor(Open(l[..i], maxSize), l[i], maxSize)
    decreases |l|
  {
    var p := l[..|l| - 1];
    StepsLast(l, maxSize);
    if i < |p| {
      StepAt(p, i, maxSize);
      assert p[..i] == l[..i];
    } else {
      assert p == l[..i];
    }
  }

  lemma {:induction false} StepsLast(l: seq<Entry>, maxSize: nat)
    requires l != []
    ensures Steps(l, maxSize) == Steps(l[..|l| - 1], maxSize) + [StepFor(Open(l[..|l| - 1], maxSize), l[|l| - 1], maxSize)]
  {
  }

  lemma {:induction false} SplitLast(s: seq<Step>, x: Step)
    ensures Split(s + [x]) == Advance(Split(s), x)
  {
    assert (s + [x])[..|s|] == s;
  }

  /** Reading one more file advances the batches by its decision. */
  lemma {:induction false} SplitExtend(l: seq<Entry>, i: nat, maxSize: nat, g: seq<seq<Entry>>)
    requires i < |l|
    requires g == Split(Steps(l[..i], maxSize))
    ensures Split(Steps(l[..i + 1], maxSize)) == Advance(g, StepFor(g[|g| - 1], l[i], maxSize))
  {
    var s := Steps(l[..i], maxSize);
    var x := StepFor(Open(l[..i], maxSize), l[i], maxSize);
    StepsExtend(l, i, maxSize);
    SplitLast(s, x);
  }

  /** No batch, closed or open, holds more than maxSize bytes. */
  lemma {:induction false} SplitWithinCap(l: seq<Entry>, maxSize: nat)
    ensures forall k :: 0 <= k < |Split(Steps(l, maxSize))| ==> Sum(Split(Steps(l, maxSize))[k]) <= maxSize
  {
    if l != [] {
      var p := l[..|l| - 1];
      SplitWithinCap(p, maxSize);
      var g := Split(Steps(p, maxSize));
      var x := StepFor(g[|g| - 1], l[|l| - 1], maxSize);
      StepsLast(l, maxSize);
      SplitLast(Steps(p, maxSize), x);
      match x
      case Skip =>
      case Close =>
        assert Sum([]) == 0;
      case Take(e) =>
        assert Sum(g[|g| - 1]) + e.size <= maxSize;
        assert Sum(g[|g| - 1] + [e]) == Sum(g[|g| - 1]) + e.size by {
          assert (g[|g| - 1] + [e])[..|g[|g| - 1]|] == g[|g| - 1];
        }
    }
  }

  /** Reading the batches one after another gives the taken files in order. */
  lemma {:induction false} SplitFlatten(s: seq<Step>)
    ensures Flatten(Split(s)) == Taken(s)
  {
    if s != [] {
      var p := s[..|s| - 1];
      SplitFlatten(p);
      var g := Split(p);
      match s[|s| - 1]
      case Skip =>
      case Close =>
        assert (g + [[]])[..|g|] == g;
      case Take(e) =>
        var g' := g[..|g| - 1] + [g[|g| - 1] + [e]];
        assert g'[..|g'| - 1] == g[..|g| - 1];
        assert Flatten(g) == Flatten(g[..|g| - 1]) + g[|g| - 1];
    }
  }

  /** There is one batch more than there are closes. */
  lemma {:induction false} SplitCount(s: seq<Step>)
    ensures |Split(s)| == Closes(s) + 1
  {
    if s != [] {
      SplitCount(s[..|s| - 1]);
    }
  }

  lemma {:induction false} TakenMember(s: seq<Step>, x: Entry)
    ensures x in Taken(s) <==> exists j :: 0 <= j < |s| && s[j] == Take(x)
  {
    if s != [] {
      var p := s[..|s| - 1];
      TakenMember(p, x);
      if exists j :: 0 <= j < |p| && p[j] == Take(x) {
        var j :| 0 <= j < |p| && p[j] == Take(x);
        assert s[j] == Take(x);
      }
      if exists j :: 0 <= j < |s| && s[j] == Take(x) {
        var j :| 0 <= j < |s| && s[j] == Take(x);
        if j < |p| {
          assert p[j] == Take(x);
        }
      }
    }
  }

  lemma {:induction false} FlattenMember<T>(g: seq<seq<T>>, x: T)
    ensures x in Flatten(g) <==> exists k :: 0 <= k < |g| && x in g[k]
  {
    if g != [] {
      var p := g[..|g| - 1];
      FlattenMember(p, x);
      if exists k :: 0 <= k < |g| && x in g[k] {
        var k :| 0 <= k < |g| && x in g[k];
        if k < |p| {
          assert x in p[k];
        }
      }
      if exists k :: 0 <= k < |p| && x in p[k] {
        var k :| 0 <= k < |p| && x in p[k];
        assert x in g[k];
      }
    }
  }

  /** Every mail's attachments fit within maxSize. */
  lemma {:induction false} BatchesWithinCap(l: seq<Entry>, maxSize: nat)
    ensures forall k :: 0 <= k < |Batches(l, maxSize)| ==> Sum(Batches(l, maxSize)[k]) <= maxSize
  {
    SplitWithinCap(l, maxSize);
  }

  /** The mails' attachments, mail after mail, are the taken files in listing order. */
  lemma {:induction false} BatchesFlatten(l: seq<Entry>, maxSize: nat)
    ensures Flatten(Batches(l, maxSize)) == Taken(Steps(l, maxSize))
  {
    var g := Split(Steps(l, maxSize));
    SplitFlatten(Steps(l, maxSize));
    if g[|g| - 1] == [] {
      assert Flatten(g) == Flatten(g[..|g| - 1]) + [];
    }
  }

  /** One mail per overflow event, and one more when the last batch is not empty. */
  lemma {:induction false} BatchesCount(l: seq<Entry>, maxSize: nat)
    ensures |Batches(l, maxSize)| == Closes(Steps(l, maxSize)) + (if Open(l, maxSize) == [] then 0 else 1)
  {
    SplitCount(Steps(l, maxSize));
  }

  /**
   * With distinct names (a directory listing has them), the i-th file ends up
   * in some mail exactly when it is an image and the batch open on its arrival,
   * plus the file, stays within maxSize.
   */
  lemma {:induction false} KeptExactly(l: seq<Entry>, i: nat, maxSize: nat)
    requires DistinctNames(l)
    requires i < |l|
    ensures (exists k :: 0 <= k < |Batches(l, maxSize)| && l[i] in Batches(l, maxSize)[k])
        <==> ImageFilter.IsImageName(l[i].name) && Sum(Open(l[..i], maxSize)) + l[i].size <= maxSize
  {
    var s := Steps(l, maxSize);
    BatchesFlatten(l, maxSize);
    FlattenMember(Batches(l, maxSize), l[i]);
    TakenMember(s, l[i]);
    StepAt(l, i, maxSize);
    if exists j :: 0 <= j < |s| && s[j] == Take(l[i]) {
      var j :| 0 <= j < |s| && s[j] == Take(l[i]);
      StepAt(l, j, maxSize);
      assert l[j] == l[i];
    }
  }

  /**
   * A file that overflows the open batch closes it, even when it is empty, and
   * is itself dropped: every batch so far becomes a mail.
   */
  lemma {:induction false} OverflowClosesBatch(l: seq<Entry>, e: Entry, maxSize: nat)
    requires ImageFilter.IsImageName(e.name)
    requires Sum(Open(l, maxSize)) + e.size > maxSize
    ensures Batches(l + [e], maxSize) == Split(Steps(l, maxSize))
    ensures Open(l + [e], maxSize) == []
  {
    assert (l + [e])[..|l|] == l;
    StepsLast(l + [e], maxSize);
    SplitLast(Steps(l, maxSize), Close);
  }

  /** A listing with no image in it (in particular an empty one) gives no mail. */
  lemma {:induction false} NoImagesNoBatches(l: seq<Entry>, maxSize: nat)
    requires forall i :: 0 <= i < |l| ==> !ImageFilter.IsImageName(l[i].name)
    ensures Batches(l, maxSize) == []
    ensures Split(Steps(l, maxSize)) == [[]]
  {
    if l != [] {
      var p := l[..|l| - 1];
      NoImagesNoBatches(p, maxSize);
      var s := Steps(l, maxSize);
      assert s[..|s| - 1] == Steps(p, maxSize);
    }
  }

  /** No element occurs twice. */
  predicate Distinct<T(==)>(s: seq<T>) {
    forall a, b :: 0 <= a < b < |s| ==> s[a] != s[b]
  }

  /** A directory listing names every file once. */
  predicate DistinctNames(l: seq<Entry>) {
    forall a, b :: 0 <= a < b < |l| ==> l[a].name != l[b].name
  }

  /** A taken file is the listing's file at the position of its decision. */
  lemma {:induction false} TakenAt(l: seq<Entry>, maxSize: nat, j: nat, x: Entry)
    requires j < |l| && Steps(l, maxSize)[j] == Take(x)
    ensures x == l[j]
  {
    StepAt(l, j, maxSize);
  }

  /** With distinct names no file is taken twice. */
  lemma {:induction false} TakenDistinct(l: seq<Entry>, maxSize: nat)
    requires DistinctNames(l)
    ensures Distinct(Taken(Steps(l, maxSize)))
  {
    if l != [] {
      var p := l[..|l| - 1];
      var e := l[|l| - 1];
      var s := Steps(l, maxSize);
      var t := Taken(Steps(p, maxSize));
      TakenDistinct(p, maxSize);
      StepsLast(l, maxSize);
      assert s[..|s| - 1] == Steps(p, maxSize);
      if s[|s| - 1].Take? {
        assert s[|s| - 1] == Take(e);
        if e in t {
          TakenMember(Steps(p, maxSize), e);
          var j :| 0 <= j < |p| && Steps(p, maxSize)[j] == Take(e);
          TakenAt(p, maxSize, j, e);
          assert false;
        }
        assert Taken(s) == t + [e];
      }
    }
  }

  /** In a concatenation without repeats, no element belongs to two different parts. */
  lemma {:induction false} FlattenDisjoint<T>(g: seq<seq<T>>, x: T, k1: nat, k2: nat)
    requires Distinct(Flatten(g))
    requires k1 < k2 < |g|
    ensures !(x in g[k1] && x in g[k2])
  {
    var p := g[..|g| - 1];
    var f := Flatten(p);
    assert Flatten(g) == f + g[|g| - 1];
    assert Distinct(f) by {
      forall a, b | 0 <= a < b < |f|
        ensures f[a] != f[b]
      {
        assert Flatten(g)[a] == f[a] && Flatten(g)[b] == f[b];
      }
    }
    if k2 < |p| {
      FlattenDisjoint(p, x, k1, k2);
    } else if x in g[k1] {
      FlattenMember(p, x);
      assert p[k1] == g[k1];
      var a :| 0 <= a < |f| && f[a] == x;
      assert Flatten(g)[a] == x;
      forall b | 0 <= b < |g[k2]|
        ensures g[k2][b] != x
      {
        assert Flatten(g)[|f| + b] == g[k2][b];
      }
    }
  }

  /** With distinct names, no file is sent twice: the mails' attachments, read one after another, never repeat. */
  lemma {:induction false} SentOnce(l: seq<Entry>, maxSize: nat)
    requires DistinctNames(l)
    ensures Distinct(Flatten(Batches(l, maxSize)))
  {
    BatchesFlatten(l, maxSize);
    TakenDistinct(l, maxSize);
  }

  /** With distinct names, a file kept in two mails' batches is kept in one mail only. */
  lemma {:induction false} InOneBatch(l: seq<Entry>, maxSize: nat, x: Entry, k1: nat, k2: nat)
    requires DistinctNames(l)
    requires k1 < |Batches(l, maxSize)| && k2 < |Batches(l, maxSize)|
    requires x in Batches(l, maxSize)[k1] && x in Batches(l, maxSize)[k2]
    ensures k1 == k2
  {
    SentOnce(l, maxSize);
    if k1 < k2 {
      FlattenDisjoint(Batches(l, maxSize), x, k1, k2);
    } else if k2 < k1 {
      FlattenDisjoint(Batches(l, maxSize), x, k2, k1);
    }
  }

  /** Every file in a mail is a file of the listing. */
  lemma {:induction false} BatchedFromListing(l: seq<Entry>, maxSize: nat, k: nat, x: Entry)
    requires k < |Batches(l, maxSize)| && x in Batches(l, maxSize)[k]
    ensures x in l
  {
    var s := Steps(l, maxSize);
    FlattenMember(Batches(l, maxSize), x);
    BatchesFlatten(l, maxSize);
    TakenMember(s, x);
    var j :| 0 <= j < |s| && s[j] == Take(x);
    StepAt(l, j, maxSize);
    assert x == l[j];
  }
}
