/**
 * The partition loop of index.js:52-93: one pass over the directory listing
 * that fills a running batch and pushes a mail whenever a file would take the
 * batch over maxSize, then pushes the last batch if it is not empty.
 */
module Partitioner {
  import opened Wrappers
  import opened Mails
  import opened Batching
  import ImageFilter
  import NumberFormat

  /** The attachment made for a kept file with the j-th identifier (index.js:72-78). */
  function Made(e: Entry, uuid: nat -> string, j: nat): Attachment {
    Attachment(e.name, uuid(j), e.size, NumberFormat.FormatNumber(e.size))
  }

  /** The attachments made for a batch whose first file got the identifier number `start`. */
  function MadeAll(batch: seq<Entry>, uuid: nat -> string, start: nat): (r: seq<Attachment>)
    ensures |r| == |batch|
  {
    if batch == [] then []
    else MadeAll(batch[..|batch| - 1], uuid, start) + [Made(batch[|batch| - 1], uuid, start + |batch| - 1)]
  }

  /** The mail the loop pushes for a batch (index.js:62-67, index.js:85-90). */
  function Pushed(files: seq<Attachment>, size: nat, count: nat): Mail {
    Mail(files, size, NumberFormat.FormatNumber(size), count, None, None)
  }

  /**
   * The mails for a run of batches: the k-th numbered k + 1, its attachments
   * numbered on from those of the mails before it.
   */
  function MailsFor(batches: seq<seq<Entry>>, uuid: nat -> string): seq<Mail> {
    if batches == [] then []
    else
      var before := batches[..|batches| - 1];
      var last := batches[|batches| - 1];
      MailsFor(before, uuid) + [Pushed(MadeAll(last, uuid, |Flatten(before)|), Sum(last), |batches|)]
  }

  lemma {:induction false} MadeAllEntries(batch: seq<Entry>, uuid: nat -> string, start: nat)
    ensures Entries(MadeAll(batch, uuid, start)) == batch
  {
    if batch != [] {
      MadeAllEntries(batch[..|batch| - 1], uuid, start);
      var r := MadeAll(batch, uuid, start);
      assert r[..|r| - 1] == MadeAll(batch[..|batch| - 1], uuid, start);
    }
  }

  lemma {:induction false} MadeAllAt(batch: seq<Entry>, uuid: nat -> string, start: nat)
    ensures forall j :: 0 <= j < |batch| ==> MadeAll(batch, uuid, start)[j] == Made(batch[j], uuid, start + j)
  {
    if batch != [] {
      MadeAllAt(batch[..|batch| - 1], uuid, start);
      var r := MadeAll(batch, uuid, start);
      assert r[..|r| - 1] == MadeAll(batch[..|batch| - 1], uuid, start);
    }
  }

  lemma {:induction false} MadeAllAppend(a: seq<Entry>, b: seq<Entry>, uuid: nat -> string, start: nat)
    ensures MadeAll(a + b, uuid, start) == MadeAll(a, uuid, start) + MadeAll(b, uuid, start + |a|)
    decreases |b|
  {
    if b == [] {
      assert a + b == a;
    } else {
      var b' := b[..|b| - 1];
      assert (a + b)[..|a + b| - 1] == a + b';
      MadeAllAppend(a, b', uuid, start);
    }
  }

  lemma {:induction false} MailsForLength(batches: seq<seq<Entry>>, uuid: nat -> string)
    ensures |MailsFor(batches, uuid)| == |batches|
  {
    if batches != [] {
      MailsForLength(batches[..|batches| - 1], uuid);
    }
  }

  /**
   * The k-th mail holds the k-th batch, is numbered k + 1, and its attachments
   * carry the identifiers that follow those of all earlier batches.
   */
  lemma {:induction false} MailsForAt(batches: seq<seq<Entry>>, uuid: nat -> string, k: nat)
    requires k < |batches|
    ensures |MailsFor(batches, uuid)| == |batches|
    ensures MailsFor(batches, uuid)[k] == Pushed(MadeAll(batches[k], uuid, |Flatten(batches[..k])|), Sum(batches[k]), k + 1)
  {
    MailsForLength(batches, uuid);
    var before := batches[..|batches| - 1];
    if k < |before| {
      MailsForAt(before, uuid, k);
      assert before[..k] == batches[..k];
    } else {
      assert batches[..k] == before;
    }
  }

  /** The first k mails are the mails for the first k batches. */
  lemma {:induction false} MailsForPrefix(batches: seq<seq<Entry>>, uuid: nat -> string, k: nat)
    requires k <= |batches|
    ensures |MailsFor(batches, uuid)| == |batches|
    ensures MailsFor(batches, uuid)[..k] == MailsFor(batches[..k], uuid)
    decreases |batches|
  {
    MailsForLength(batches, uuid);
    if k < |batches| {
      var before := batches[..|batches| - 1];
      var ms := MailsFor(batches, uuid);
      MailsForPrefix(before, uuid, k);
      assert ms[..|ms| - 1] == MailsFor(before, uuid);
      assert ms[..k] == ms[..|ms| - 1][..k];
      assert before[..k] == batches[..k];
    } else {
      assert batches[..k] == batches;
    }
  }

  /** Read mail after mail, the attachments carry the identifiers 0, 1, 2, ... */
  lemma {:induction false} MailsForAttachments(batches: seq<seq<Entry>>, uuid: nat -> string)
    ensures AllAttachments(MailsFor(batches, uuid)) == MadeAll(Flatten(batches), uuid, 0)
  {
    if batches != [] {
      var before := batches[..|batches| - 1];
      var last := batches[|batches| - 1];
      var ms := MailsFor(batches, uuid);
      PushRunning(batches, uuid);
      assert ms[..|ms| - 1] == MailsFor(before, uuid);
      assert AllAttachments(ms) == AllAttachments(MailsFor(before, uuid)) + MadeAll(last, uuid, |Flatten(before)|);
      MailsForAttachments(before, uuid);
      assert Flatten(batches) == Flatten(before) + last;
      MadeAllAppend(Flatten(before), last, uuid, 0);
    }
  }

  /** Mail k carries batch k, is numbered k + 1 and records the batch's total size and its text. */
  lemma {:induction false} MailsForFields(batches: seq<seq<Entry>>, uuid: nat -> string, k: nat)
    requires k < |batches|
    ensures |MailsFor(batches, uuid)| == |batches|
    ensures var m := MailsFor(batches, uuid)[k];
      && Entries(m.attachments) == batches[k]
      && m.count == k + 1 && m.size == Sum(batches[k])
      && m.sizeText == NumberFormat.FormatNumber(Sum(batches[k]))
  {
    MailsForAt(batches, uuid, k);
    MadeAllEntries(batches[k], uuid, |Flatten(batches[..k])|);
  }

  /** MailsForFields for every mail at once. */
  lemma {:induction false} MailsForContents(batches: seq<seq<Entry>>, uuid: nat -> string)
    ensures |MailsFor(batches, uuid)| == |batches|
    ensures forall k :: 0 <= k < |batches| ==>
      && Entries(MailsFor(batches, uuid)[k].attachments) == batches[k]
      && MailsFor(batches, uuid)[k].count == k + 1
      && MailsFor(batches, uuid)[k].size == Sum(batches[k])
      && MailsFor(batches, uuid)[k].sizeText == NumberFormat.FormatNumber(Sum(batches[k]))
  {
    MailsForLength(batches, uuid);
    forall k | 0 <= k < |batches|
      ensures var m := MailsFor(batches, uuid)[k];
        && Entries(m.attachments) == batches[k]
        && m.count == k + 1 && m.size == Sum(batches[k])
        && m.sizeText == NumberFormat.FormatNumber(Sum(batches[k]))
    {
      MailsForFields(batches, uuid, k);
    }
  }

  /** The partition draws one identifier per batched file. */
  lemma {:induction false} MailsForDrawn(batches: seq<seq<Entry>>, uuid: nat -> string)
    ensures |AllAttachments(MailsFor(batches, uuid))| == |Flatten(batches)|
  {
    MailsForAttachments(batches, uuid);
  }

  /** The first k mails carry one attachment per file of the first k batches. */
  lemma {:induction false} MailsForDrawnBefore(batches: seq<seq<Entry>>, uuid: nat -> string, k: nat)
    requires k <= |batches|
    ensures |MailsFor(batches, uuid)| == |batches|
    ensures |AllAttachments(MailsFor(batches, uuid)[..k])| == |Flatten(batches[..k])|
  {
    MailsForPrefix(batches, uuid, k);
    MailsForDrawn(batches[..k], uuid);
  }

  /** Read mail after mail, the attachments are the batched files in order. */
  lemma {:induction false} MailsForEntries(batches: seq<seq<Entry>>, uuid: nat -> string)
    ensures Entries(AllAttachments(MailsFor(batches, uuid))) == Flatten(batches)
  {
    MailsForAttachments(batches, uuid);
    MadeAllEntries(Flatten(batches), uuid, 0);
  }

  /** The attachments, mail after mail, are one per batched file and carry the identifiers 0, 1, 2, ... */
  lemma {:induction false} MailsForIdentifiers(batches: seq<seq<Entry>>, uuid: nat -> string)
    ensures |AllAttachments(MailsFor(batches, uuid))| == |Flatten(batches)|
    ensures IdsFrom(AllAttachments(MailsFor(batches, uuid)), uuid, 0)
  {
    MailsForAttachments(batches, uuid);
    var all := MadeAll(Flatten(batches), uuid, 0);
    assert AllAttachments(MailsFor(batches, uuid)) == all;
    forall j | 0 <= j < |Flatten(batches)| ensures all[j].cid == uuid(j) {
      MadeAllCid(Flatten(batches), uuid, 0, j);
    }
  }

  lemma {:induction false} MadeAllCid(batch: seq<Entry>, uuid: nat -> string, start: nat, j: nat)
    requires j < |batch|
    ensures MadeAll(batch, uuid, start)[j].cid == uuid(start + j)
  {
    MadeAllAt(batch, uuid, start);
  }

  /** Pushing the running batch appends its mail to those of the closed batches. */
  lemma {:induction false} PushRunning(g: seq<seq<Entry>>, uuid: nat -> string)
    requires g != []
    ensures MailsFor(g, uuid)
      == MailsFor(g[..|g| - 1], uuid) + [Pushed(MadeAll(g[|g| - 1], uuid, |Flatten(g[..|g| - 1])|), Sum(g[|g| - 1]), |g|)]
    ensures |Flatten(g)| == |Flatten(g[..|g| - 1])| + |g[|g| - 1]|
  {
  }

  /**
   * Taking a file: the running batch's attachments gain the file with the next
   * identifier and its size adds to the batch's total.
   */
  lemma {:induction false} TakeStep(g: seq<seq<Entry>>, e: Entry, uuid: nat -> string, g': seq<seq<Entry>>)
    requires g != [] && g' == Advance(g, Take(e))
    ensures g'[..|g'| - 1] == g[..|g| - 1]
    ensures MadeAll(g'[|g'| - 1], uuid, |Flatten(g'[..|g'| - 1])|)
      == MadeAll(g[|g| - 1], uuid, |Flatten(g[..|g| - 1])|) + [Made(e, uuid, |Flatten(g)|)]
    ensures Sum(g'[|g'| - 1]) == Sum(g[|g| - 1]) + e.size
    ensures |Flatten(g')| == |Flatten(g)| + 1
  {
    var open := g[|g| - 1];
    assert g'[..|g'| - 1] == g[..|g| - 1];
    assert (open + [e])[..|open|] == open;
    PushRunning(g, uuid);
  }

  /**
   * Closing the running batch: its mail joins the pushed ones and a new, empty
   * batch opens, with no identifier drawn.
   */
  lemma {:induction false} CloseStep(g: seq<seq<Entry>>, uuid: nat -> string, g': seq<seq<Entry>>)
    requires g != [] && g' == Advance(g, Close)
    ensures MailsFor(g'[..|g'| - 1], uuid)
      == MailsFor(g[..|g| - 1], uuid) + [Pushed(MadeAll(g[|g| - 1], uuid, |Flatten(g[..|g| - 1])|), Sum(g[|g| - 1]), |g|)]
    ensures g'[|g'| - 1] == []
    ensures |Flatten(g')| == |Flatten(g)|
    ensures |g'| == |g| + 1
  {
    assert g'[..|g'| - 1] == g;
    assert Flatten(g') == Flatten(g) + [];
    PushRunning(g, uuid);
  }

  /** The mails Partition returns, described through the batches they carry. */
  lemma {:induction false} PartitionFacts(listing: seq<Entry>, maxSize: nat, uuid: nat -> string)
    ensures |MailsFor(Batches(listing, maxSize), uuid)| == |Batches(listing, maxSize)|
    ensures forall k :: 0 <= k < |Batches(listing, maxSize)| ==>
      && Entries(MailsFor(Batches(listing, maxSize), uuid)[k].attachments) == Batches(listing, maxSize)[k]
      && MailsFor(Batches(listing, maxSize), uuid)[k].count == k + 1
      && MailsFor(Batches(listing, maxSize), uuid)[k].size == Sum(Batches(listing, maxSize)[k]) <= maxSize
      && MailsFor(Batches(listing, maxSize), uuid)[k].sizeText == NumberFormat.FormatNumber(Sum(Batches(listing, maxSize)[k]))
    ensures |AllAttachments(MailsFor(Batches(listing, maxSize), uuid))| == |Flatten(Batches(listing, maxSize))|
    ensures IdsFrom(AllAttachments(MailsFor(Batches(listing, maxSize), uuid)), uuid, 0)
  {
    var b := Batches(listing, maxSize);
    BatchesWithinCap(listing, maxSize);
    MailsForContents(b, uuid);
    MailsForIdentifiers(b, uuid);
  }

  /**
   * The loop's variables for the batches g read so far: the mails pushed for
   * the closed batches, the attachments and total size of the running batch,
   * the number the running batch's mail will get, and the ids drawn.
   */
  ghost predicate Filling(g: seq<seq<Entry>>, uuid: nat -> string, mails: seq<Mail>, files: seq<Attachment>,
                          currentSize: nat, mailCount: nat, drawn: nat)
  {
    && g != []
    && mails == MailsFor(g[..|g| - 1], uuid)
    && files == MadeAll(g[|g| - 1], uuid, |Flatten(g[..|g| - 1])|)
    && currentSize == Sum(g[|g| - 1])
    && mailCount == |g|
    && drawn == |Flatten(g)|
  }

  /**
   * The loop body of index.js:57-81 for one listed file e: a name the filter
   * rejects changes nothing; a file that would take the running batch over
   * maxSize pushes the running batch's mail, empty or not, and starts a new
   * batch without keeping the file; any other file joins the running batch
   * with the next id. The state moves along with the decision StepFor makes.
   */
  method Consider(e: Entry, maxSize: nat, uuid: nat -> string, ghost g: seq<seq<Entry>>,
                  mails: seq<Mail>, files: seq<Attachment>, currentSize: nat, mailCount: nat, drawn: nat)
    returns (mails': seq<Mail>, files': seq<Attachment>, currentSize': nat, mailCount': nat, drawn': nat,
             ghost g': seq<seq<Entry>>)
    requires Filling(g, uuid, mails, files, currentSize, mailCount, drawn)
    ensures g' == Advance(g, StepFor(g[|g| - 1], e, maxSize))
    ensures Filling(g', uuid, mails', files', currentSize', mailCount', drawn')
  {
    mails', files', currentSize', mailCount', drawn', g' := mails, files, currentSize, mailCount, drawn, g;
    if ImageFilter.IsImageName(e.name) {
      if currentSize + e.size > maxSize {
        g' := Advance(g, Close);
        CloseStep(g, uuid, g');
        mails' := mails + [Pushed(files, currentSize, mailCount)];
        mailCount' := mailCount + 1;
        currentSize' := 0;
        files' := [];
      } else {
        g' := Advance(g, Take(e));
        TakeStep(g, e, uuid, g');
        files' := files + [Made(e, uuid, drawn)];
        drawn' := drawn + 1;
        currentSize' := currentSize + e.size;
      }
    }
  }

  /** After the whole listing, pushing the running batch if it holds a file gives the mails for the listing's batches. */
  lemma {:induction false} Flushed(listing: seq<Entry>, maxSize: nat, uuid: nat -> string, g: seq<seq<Entry>>,
                                   mails: seq<Mail>, files: seq<Attachment>, currentSize: nat, mailCount: nat, drawn: nat)
    requires g == Split(Steps(listing, maxSize))
    requires Filling(g, uuid, mails, files, currentSize, mailCount, drawn)
    ensures |files| > 0 ==> mails + [Pushed(files, currentSize, mailCount)] == MailsFor(Batches(listing, maxSize), uuid)
    ensures |files| == 0 ==> mails == MailsFor(Batches(listing, maxSize), uuid)
    ensures drawn == |Flatten(Batches(listing, maxSize))|
  {
    var b := Batches(listing, maxSize);
    PushRunning(g, uuid);
    if |files| > 0 {
      assert b == g;
    } else {
      assert b == g[..|g| - 1];
      assert Flatten(g) == Flatten(b) + [];
    }
  }

  /**
   * Reads the listing in order (index.js:56-82) and then pushes the running
   * batch if it holds a file (index.js:84-91). `uuid(j)` is the j-th
   * identifier the generator hands out (index.js:75); `drawn` is how many
   * were asked for.
   */
  method Partition(listing: seq<Entry>, maxSize: nat, uuid: nat -> string) returns (mails: seq<Mail>, drawn: nat)
    ensures mails == MailsFor(Batches(listing, maxSize), uuid)
    ensures |mails| == |Batches(listing, maxSize)|
    ensures forall k :: 0 <= k < |mails| ==>
      && Entries(mails[k].attachments) == Batches(listing, maxSize)[k]
      && mails[k].count == k + 1
      && mails[k].size == Sum(Batches(listing, maxSize)[k]) <= maxSize
      && mails[k].sizeText == NumberFormat.FormatNumber(mails[k].size)
    ensures drawn == |AllAttachments(mails)|
    ensures IdsFrom(AllAttachments(mails), uuid, 0)
  {
    mails := [];
    var mailCount := 1;
    var files: seq<Attachment> := [];
    var currentSize := 0;
    drawn := 0;
    ghost var g: seq<seq<Entry>> := [[]];
    for i := 0 to |listing|
      invariant g == Split(Steps(listing[..i], maxSize))
      invariant Filling(g, uuid, mails, files, currentSize, mailCount, drawn)
    {
      SplitExtend(listing, i, maxSize, g);
      mails, files, currentSize, mailCount, drawn, g :=
        Consider(listing[i], maxSize, uuid, g, mails, files, currentSize, mailCount, drawn);
    }
    assert listing[..|listing|] == listing;
    Flushed(listing, maxSize, uuid, g, mails, files, currentSize, mailCount, drawn);
    if |files| > 0 {
      mails := mails + [Pushed(files, currentSize, mailCount)];
      currentSize := 0;
      files := [];
    }
    PartitionFacts(listing, maxSize, uuid);
  }
}
