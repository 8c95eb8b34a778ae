/**
 * What index.js:52-104 hands to sendMails for one directory listing: the
 * listing partitioned into mails, then every mail presented. The identifier
 * generator is shared by both stages, so the ids the presentation draws come
 * after those the partition drew.
 */
module Mailer {
  import opened Wrappers
  import opened Mails
  import opened Batching
  import opened Partitioner
  import opened HtmlBody
  import opened Presenter
  import ImageFilter
  import NumberFormat

  /** The mails pushed for `batches`, presented with the ids drawn after those the pushing drew. */
  function MailsOf(batches: seq<seq<Entry>>, base: string, uuid: nat -> string): seq<Mail> {
    PresentAll(MailsFor(batches, uuid), base, |batches|, uuid, |Flatten(batches)|)
  }

  /** The mails sent for `listing`, given maxSize, the base subject and the generator. */
  function Mailing(listing: seq<Entry>, maxSize: nat, base: string, uuid: nat -> string): seq<Mail> {
    MailsOf(Batches(listing, maxSize), base, uuid)
  }

  /**
   * The draw number of the id the presentation gives to the first attachment
   * of mail k: the partition drew one id per batched file, and the mails
   * before mail k one per attachment.
   */
  function FirstId(b: seq<seq<Entry>>, k: nat): nat
    requires k <= |b|
  {
    |Flatten(b)| + |Flatten(b[..k])|
  }

  /** The draws `uuid(lo)` up to `uuid(hi - 1)` are pairwise different. */
  ghost predicate DistinctDraws(uuid: nat -> string, lo: nat, hi: nat) {
    forall i: nat, j: nat :: lo <= i < j < hi ==> uuid(i) != uuid(j)
  }

  /** The draws `uuid(lo)` up to `uuid(hi - 1)` have the text shape of a UUID. */
  ghost predicate UuidDraws(uuid: nat -> string, lo: nat, hi: nat) {
    forall i: nat :: lo <= i < hi ==> IsUuid(uuid(i))
  }

  /** No name in `entries` contains one of the draws `uuid(lo)` up to `uuid(hi - 1)`. */
  ghost predicate NamesAvoid(entries: seq<Entry>, uuid: nat -> string, lo: nat, hi: nat) {
    forall i: nat, l :: lo <= i < hi && 0 <= l < |entries| ==> Occurrences(uuid(i), entries[l].name) == 0
  }

  /**
   * Partitions the listing into a list of mails, copies it into the array the
   * presentation loop works on, and presents it.
   */
  method BuildMails(listing: seq<Entry>, maxSize: nat, base: string, uuid: nat -> string) returns (mails: seq<Mail>)
    ensures mails == Mailing(listing, maxSize, base, uuid)
  {
    var pushed, drawn := Partition(listing, maxSize, uuid);
    MailsForDrawn(Batches(listing, maxSize), uuid);
    var a := ToArray(pushed);
    var _ := Present(a, base, uuid, drawn);
    mails := a[..];
  }

  /** A new array holding the mails of `s`, in order. */
  method ToArray(s: seq<Mail>) returns (a: array<Mail>)
    ensures fresh(a) && a[..] == s
  {
    a := new Mail[|s|](i requires 0 <= i < |s| => s[i]);
  }

  /**
   * Mail k carries batch k, is numbered k + 1, records the batch's size and
   * its text, has the subject "base (k+1/N)" and a body with one fragment
   * per attachment.
   */
  lemma {:induction false} MailsOfFields(b: seq<seq<Entry>>, base: string, uuid: nat -> string, k: nat)
    requires k < |b|
    ensures |MailsOf(b, base, uuid)| == |b|
    ensures var m := MailsOf(b, base, uuid)[k];
      && Entries(m.attachments) == b[k]
      && m.count == k + 1
      && m.size == Sum(b[k])
      && m.sizeText == NumberFormat.FormatNumber(Sum(b[k]))
      && m.subject == Some(Subject(base, k + 1, |b|))
      && m.html == Some(Html(m.attachments))
  {
    var ms := MailsFor(b, uuid);
    MailsForFields(b, uuid, k);
    PresentAllFields(ms, base, |b|, uuid, |Flatten(b)|, k);
  }

  /** The attachments of mail k carry the ids drawn from FirstId(b, k) on. */
  lemma {:induction false} MailsOfIds(b: seq<seq<Entry>>, base: string, uuid: nat -> string, k: nat)
    requires k < |b|
    ensures |MailsOf(b, base, uuid)| == |b|
    ensures var m := MailsOf(b, base, uuid)[k];
      IdsFrom(m.attachments, uuid, FirstId(b, k))
  {
    var ms := MailsFor(b, uuid);
    MailsForDrawnBefore(b, uuid, k);
    PresentAllIds(ms, base, |b|, uuid, |Flatten(b)|, k, FirstId(b, k));
    assert MailsOf(b, base, uuid) == PresentAll(ms, base, |b|, uuid, |Flatten(b)|);
  }

  /**
   * One mail per batch; mail k carries batch k, is numbered k + 1, records
   * the batch's size and its text, has the subject "base (k+1/N)" and a body
   * with one fragment per attachment.
   */
  lemma {:induction false} MailsOfShape(b: seq<seq<Entry>>, base: string, uuid: nat -> string)
    ensures |MailsOf(b, base, uuid)| == |b|
    ensures forall k :: 0 <= k < |b| ==>
      && Entries(MailsOf(b, base, uuid)[k].attachments) == b[k]
      && MailsOf(b, base, uuid)[k].count == k + 1
      && MailsOf(b, base, uuid)[k].size == Sum(b[k])
      && MailsOf(b, base, uuid)[k].sizeText == NumberFormat.FormatNumber(Sum(b[k]))
      && MailsOf(b, base, uuid)[k].subject == Some(Subject(base, k + 1, |b|))
      && MailsOf(b, base, uuid)[k].html == Some(Html(MailsOf(b, base, uuid)[k].attachments))
  {
    MailsForLength(b, uuid);
    forall k | 0 <= k < |b|
      ensures var m := MailsOf(b, base, uuid)[k];
        && Entries(m.attachments) == b[k]
        && m.count == k + 1
        && m.size == Sum(b[k])
        && m.sizeText == NumberFormat.FormatNumber(Sum(b[k]))
        && m.subject == Some(Subject(base, k + 1, |b|))
        && m.html == Some(Html(m.attachments))
    {
      MailsOfFields(b, base, uuid, k);
    }
  }

  /**
   * Read mail after mail, the attachments are the batched files in order, and
   * the j-th carries the id drawn right after the |Flatten(b)| ids the
   * partition drew and the j drawn before it.
   */
  lemma {:induction false} MailsOfAttachments(b: seq<seq<Entry>>, base: string, uuid: nat -> string)
    ensures Entries(AllAttachments(MailsOf(b, base, uuid))) == Flatten(b)
    ensures IdsFrom(AllAttachments(MailsOf(b, base, uuid)), uuid, |Flatten(b)|)
  {
    var made := AllAttachments(MailsFor(b, uuid));
    var all := AllAttachments(MailsOf(b, base, uuid));
    MailsOfRenumbered(b, base, uuid);
    RecidFields(made, uuid, |Flatten(b)|, all);
    MailsForEntries(b, uuid);
  }

  /** The attachments of all the mails are those the partition made, renumbered from draw |Flatten(b)| on. */
  lemma {:induction false} MailsOfRenumbered(b: seq<seq<Entry>>, base: string, uuid: nat -> string)
    ensures AllAttachments(MailsOf(b, base, uuid)) == Recid(AllAttachments(MailsFor(b, uuid)), uuid, |Flatten(b)|)
  {
    PresentAllAttachments(MailsFor(b, uuid), base, |b|, uuid, |Flatten(b)|);
  }

  /**
   * When the 2 * |Flatten(b)| draws of the run are pairwise different, the
   * attachments of all the mails carry pairwise different ids, and none of
   * them is an id the partition drew: every id given out at index.js:75 has
   * been replaced.
   */
  lemma {:induction false} MailsOfIdsFresh(b: seq<seq<Entry>>, base: string, uuid: nat -> string)
    requires DistinctDraws(uuid, 0, 2 * |Flatten(b)|)
    ensures var all := AllAttachments(MailsOf(b, base, uuid));
      forall j1, j2 :: 0 <= j1 < j2 < |all| ==> all[j1].cid != all[j2].cid
    ensures var all := AllAttachments(MailsOf(b, base, uuid));
      forall j, i :: 0 <= j < |all| && 0 <= i < |Flatten(b)| ==> all[j].cid != uuid(i)
  {
    var all := AllAttachments(MailsOf(b, base, uuid));
    MailsOfAttachments(b, base, uuid);
    assert |Entries(all)| == |all|;
  }

  /**
   * Each attachment's id occurs exactly once in the body of its mail,
   * provided the |b[k]| ids drawn for mail k look like UUIDs and are pairwise
   * different, and no file name in the mail contains one of them.
   */
  lemma {:induction false} MailsOfCidOnce(b: seq<seq<Entry>>, base: string, uuid: nat -> string, k: nat, j: nat)
    requires k < |b| && j < |b[k]|
    requires DistinctDraws(uuid, FirstId(b, k), FirstId(b, k) + |b[k]|)
    requires UuidDraws(uuid, FirstId(b, k), FirstId(b, k) + |b[k]|)
    requires NamesAvoid(b[k], uuid, FirstId(b, k), FirstId(b, k) + |b[k]|)
    ensures |MailsOf(b, base, uuid)| == |b|
    ensures var m := MailsOf(b, base, uuid)[k];
      && j < |m.attachments| && m.html.Some?
      && Occurrences(m.attachments[j].cid, m.html.value) == 1
  {
    var start := FirstId(b, k);
    MailsOfFields(b, base, uuid, k);
    MailsOfIds(b, base, uuid, k);
    var m := MailsOf(b, base, uuid)[k];
    assert |m.attachments| == |b[k]| by {
      assert |Entries(m.attachments)| == |m.attachments|;
    }
    DrawnCidOnce(m.attachments, uuid, start, j);
  }

  /**
   * Attachments numbered from draw `start` on, with those draws UUID-shaped,
   * pairwise different and in none of the file names: each id occurs once in
   * their body.
   */
  lemma {:induction false} DrawnCidOnce(atts: seq<Attachment>, uuid: nat -> string, start: nat, j: nat)
    requires j < |atts|
    requires IdsFrom(atts, uuid, start)
    requires DistinctDraws(uuid, start, start + |atts|)
    requires UuidDraws(uuid, start, start + |atts|)
    requires NamesAvoid(Entries(atts), uuid, start, start + |atts|)
    ensures Occurrences(atts[j].cid, Html(atts)) == 1
  {
    forall l | 0 <= l < |atts|
      ensures IsUuid(atts[l].cid)
    {
      assert atts[l].cid == uuid(start + l);
    }
    forall l, l' | 0 <= l < l' < |atts|
      ensures atts[l].cid != atts[l'].cid
    {
      assert atts[l].cid == uuid(start + l) && atts[l'].cid == uuid(start + l');
    }
    forall l, l' | 0 <= l < |atts| && 0 <= l' < |atts|
      ensures Occurrences(atts[l].cid, atts[l'].file) == 0
    {
      EntriesAt(atts, l');
      assert atts[l].cid == uuid(start + l);
    }
    CidAppearsOnce(atts, j);
  }

  /** Every mail sent for a listing stays within maxSize, besides the shape MailsOfShape states. */
  lemma {:induction false} MailingWithinCap(listing: seq<Entry>, maxSize: nat, base: string, uuid: nat -> string)
    ensures |Mailing(listing, maxSize, base, uuid)| == |Batches(listing, maxSize)|
    ensures forall k :: 0 <= k < |Mailing(listing, maxSize, base, uuid)| ==>
      Mailing(listing, maxSize, base, uuid)[k].size <= maxSize
  {
    var b := Batches(listing, maxSize);
    MailsOfShape(b, base, uuid);
    BatchesWithinCap(listing, maxSize);
  }

  /**
   * Each attachment's id occurs exactly once in the body of its mail,
   * provided the ids the presentation draws (draws D up to 2 * D - 1, D the
   * number of batched files) look like UUIDs and are pairwise different, and
   * no name of the listing contains one of them.
   */
  lemma {:induction false} MailingCidOnce(listing: seq<Entry>, maxSize: nat, base: string, uuid: nat -> string, k: nat, j: nat)
    requires k < |Batches(listing, maxSize)| && j < |Batches(listing, maxSize)[k]|
    requires var d := |Flatten(Batches(listing, maxSize))|;
      DistinctDraws(uuid, d, 2 * d) && UuidDraws(uuid, d, 2 * d) && NamesAvoid(listing, uuid, d, 2 * d)
    ensures |Mailing(listing, maxSize, base, uuid)| == |Batches(listing, maxSize)|
    ensures var m := Mailing(listing, maxSize, base, uuid)[k];
      && j < |m.attachments| && m.html.Some?
      && Occurrences(m.attachments[j].cid, m.html.value) == 1
  {
    var b := Batches(listing, maxSize);
    var d := |Flatten(b)|;
    var batch: seq<Entry> := b[k];
    var lo, hi := FirstId(b, k), FirstId(b, k) + |batch|;
    FlattenPrefixLength(b, k);
    assert d <= lo && hi <= 2 * d;
    forall i: nat, l: int | lo <= i < hi && 0 <= l < |batch|
      ensures Occurrences(uuid(i), batch[l].name) == 0
    {
      BatchedFromListing(listing, maxSize, k, batch[l]);
    }
    MailsOfCidOnce(b, base, uuid, k, j);
  }

  /** A listing without an image in it, in particular an empty one, gives no mail. */
  lemma {:induction false} NoImagesNoMail(listing: seq<Entry>, maxSize: nat, base: string, uuid: nat -> string)
    requires forall i :: 0 <= i < |listing| ==> !ImageFilter.IsImageName(listing[i].name)
    ensures Mailing(listing, maxSize, base, uuid) == []
  {
    NoImagesNoBatches(listing, maxSize);
  }
}
