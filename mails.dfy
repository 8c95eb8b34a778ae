/**
 * The records index.js builds: a directory entry with its size, an attachment
 * (index.js:72-78) and a mail (index.js:62-67, index.js:85-90, completed with
 * subject and html at index.js:96 and index.js:103).
 */
module Mails {
  import opened Wrappers

  /** One name of the directory listing with the size `fs.statSync` reports for it. */
  datatype Entry = Entry(name: string, size: nat)

  /** `sizeText` is the `sizeT` field: the size run through formatNumber. */
  datatype Attachment = Attachment(file: string, cid: string, size: nat, sizeText: string)

  /** `subject` and `html` are absent until the mail is presented. */
  datatype Mail = Mail(
    attachments: seq<Attachment>,
    size: nat,
    sizeText: string,
    count: nat,
    subject: Option<string>,
    html: Option<string>)

  /** The directory entry an attachment was made from. */
  function EntryOf(a: Attachment): Entry {
    Entry(a.file, a.size)
  }

  function Entries(atts: seq<Attachment>): (r: seq<Entry>)
    ensures |r| == |atts|
  {
    if atts == [] then [] else Entries(atts[..|atts| - 1]) + [EntryOf(atts[|atts| - 1])]
  }

  /** The total size of a run of entries. */
  function Sum(s: seq<Entry>): nat {
    if s == [] then 0 else Sum(s[..|s| - 1]) + s[|s| - 1].size
  }

  function Flatten<T>(g: seq<seq<T>>): seq<T> {
    if g == [] then [] else Flatten(g[..|g| - 1]) + g[|g| - 1]
  }

  /** The attachments of all the mails, mail after mail. */
  function AllAttachments(ms: seq<Mail>): seq<Attachment> {
    if ms == [] then [] else AllAttachments(ms[..|ms| - 1]) + ms[|ms| - 1].attachments
  }

  /** The j-th attachment carries the id `uuid(start + j)`: the ids were drawn in order from draw `start` on. */
  ghost predicate IdsFrom(atts: seq<Attachment>, uuid: nat -> string, start: nat) {
    forall j :: 0 <= j < |atts| ==> atts[j].cid == uuid(start + j)
  }

  lemma {:induction false} EntriesAt(atts: seq<Attachment>, j: nat)
    requires j < |atts|
    ensures Entries(atts)[j] == EntryOf(atts[j])
  {
    if j < |atts| - 1 {
      EntriesAt(atts[..|atts| - 1], j);
    }
  }

  lemma {:induction false} AllAttachmentsPrefix(ms: seq<Mail>, k: nat)
    requires k < |ms|
    ensures AllAttachments(ms[..k + 1]) == AllAttachments(ms[..k]) + ms[k].attachments
  {
    assert ms[..k + 1][..k] == ms[..k];
  }

  /** The groups before group k, and group k itself, lie within the flattened whole. */
  lemma {:induction false} FlattenPrefixLength<T>(g: seq<seq<T>>, k: nat)
    requires k < |g|
    ensures |Flatten(g[..k])| + |g[k]| <= |Flatten(g)|
  {
    var p := g[..|g| - 1];
    assert g[..k] == p[..k];
    if k < |p| {
      FlattenPrefixLength(p, k);
    } else {
      assert p[..k] == p;
    }
  }

  lemma {:induction false} SumAppend(s: seq<Entry>, t: seq<Entry>)
    ensures Sum(s + t) == Sum(s) + Sum(t)
    decreases |t|
  {
    if t == [] {
      assert s + t == s;
    } else {
      assert (s + t)[..|s + t| - 1] == s + t[..|t| - 1];
      SumAppend(s, t[..|t| - 1]);
    }
  }
}
