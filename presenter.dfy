/**
 * The presentation loop of index.js:95-104: every pushed mail gets its
 * subject, each of its attachments a newly drawn content id, and an HTML body
 * with one fragment per attachment.
 */
module Presenter {
  import opened Wrappers
  import opened Mails
  import opened Decimal
  import opened HtmlBody

  /** The subject of index.js:96: the base subject, then the mail's number and the number of mails. */
  function Subject(base: string, count: nat, total: nat): string {
    base + " (" + Digits(count) + "/" + Digits(total) + ")"
  }

  /** The attachments after the content id of the j-th is replaced by `uuid(start + j)` (index.js:99). */
  function Recid(atts: seq<Attachment>, uuid: nat -> string, start: nat): (r: seq<Attachment>)
    ensures |r| == |atts|
  {
    if atts == [] then []
    else
      var a := atts[|atts| - 1];
      Recid(atts[..|atts| - 1], uuid, start) + [a.(cid := uuid(start + |atts| - 1))]
  }

  /** A mail once presented, its attachments' ids drawn from `uuid(start)` on. */
  function Presented(m: Mail, base: string, total: nat, uuid: nat -> string, start: nat): Mail {
    var atts := Recid(m.attachments, uuid, start);
    m.(attachments := atts, subject := Some(Subject(base, m.count, total)), html := Some(Html(atts)))
  }

  /** All the mails presented in order, the ids drawn one after another from `uuid(start)` on. */
  function PresentAll(ms: seq<Mail>, base: string, total: nat, uuid: nat -> string, start: nat): (r: seq<Mail>)
    ensures |r| == |ms|
  {
    if ms == [] then []
    else
      var before := ms[..|ms| - 1];
      PresentAll(before, base, total, uuid, start) + [Presented(ms[|ms| - 1], base, total, uuid, start + |AllAttachments(before)|)]
  }

  /**
   * Renumbering keeps every file and its size, in order, and changes nothing
   * about an attachment but its id: its size text in particular stays.
   */
  lemma {:induction false} RecidEntries(atts: seq<Attachment>, uuid: nat -> string, start: nat)
    ensures Entries(Recid(atts, uuid, start)) == Entries(atts)
    ensures forall j :: 0 <= j < |atts| ==> Recid(atts, uuid, start)[j].(cid := atts[j].cid) == atts[j]
  {
    if atts != [] {
      var r := Recid(atts, uuid, start);
      RecidEntries(atts[..|atts| - 1], uuid, start);
      assert r[..|r| - 1] == Recid(atts[..|atts| - 1], uuid, start);
    }
    forall j | 0 <= j < |atts|
      ensures Recid(atts, uuid, start)[j].(cid := atts[j].cid) == atts[j]
    {
      RecidAt(atts, uuid, start, j);
    }
  }

  /** Renumbering gives the j-th attachment the id `uuid(start + j)` and changes nothing else about it. */
  lemma {:induction false} RecidAt(atts: seq<Attachment>, uuid: nat -> string, start: nat, j: nat)
    requires j < |atts|
    ensures Recid(atts, uuid, start)[j] == atts[j].(cid := uuid(start + j))
  {
    var before := atts[..|atts| - 1];
    if j < |before| {
      RecidAt(before, uuid, start, j);
    }
  }

  lemma {:induction false} RecidAppend(a: seq<Attachment>, b: seq<Attachment>, uuid: nat -> string, start: nat)
    ensures Recid(a + b, uuid, start) == Recid(a, uuid, start) + Recid(b, uuid, start + |a|)
    decreases |b|
  {
    if b == [] {
      assert a + b == a;
    } else {
      var b' := b[..|b| - 1];
      assert (a + b)[..|a + b| - 1] == a + b';
      RecidAppend(a, b', uuid, start);
    }
  }

  /** Mails with different numbers get different subjects. */
  lemma {:induction false} SubjectsDistinct(base: string, c1: nat, c2: nat, total: nat)
    requires c1 != c2
    ensures Subject(base, c1, total) != Subject(base, c2, total)
  {
    var tail := "/" + Digits(total) + ")";
    var s1, s2 := Subject(base, c1, total), Subject(base, c2, total);
    assert s1 == base + " (" + Digits(c1) + tail;
    assert s2 == base + " (" + Digits(c2) + tail;
    if s1 == s2 {
      var p := |base| + 2;
      assert |Digits(c1)| == |Digits(c2)|;
      assert s1[p..p + |Digits(c1)|] == Digits(c1);
      assert s2[p..p + |Digits(c2)|] == Digits(c2);
      DigitsInjective(c1, c2);
    }
  }

  /** The count in a subject can be read back from it. */
  lemma {:induction false} SubjectCount(base: string, count: nat, total: nat)
    ensures var s := Subject(base, count, total);
      var n := |Digits(count)|;
      && s[..|base| + 2] == base + " ("
      && AllDigits(s[|base| + 2..|base| + 2 + n])
      && Value(s[|base| + 2..|base| + 2 + n]) == count
      && s[|base| + 2 + n] == '/'
  {
    var s := Subject(base, count, total);
    var p := |base| + 2;
    assert s[p..p + |Digits(count)|] == Digits(count);
    ValueOfDigits(count);
  }

  /**
   * Presenting a mail keeps its files, size, size text and number, gives it
   * the subject for its number, draws its ids from `uuid(start)` on and
   * gives it the body made from the renumbered attachments.
   */
  lemma {:induction false} PresentedFields(m: Mail, base: string, total: nat, uuid: nat -> string, start: nat)
    ensures var p := Presented(m, base, total, uuid, start);
      && Entries(p.attachments) == Entries(m.attachments)
      && p.size == m.size && p.sizeText == m.sizeText && p.count == m.count
      && p.subject == Some(Subject(base, m.count, total))
      && p.html == Some(Html(p.attachments))
      && IdsFrom(p.attachments, uuid, start)
  {
    RecidFields(m.attachments, uuid, start, Recid(m.attachments, uuid, start));
  }

  /** Renumbering keeps the files and gives the j-th attachment the id `uuid(start + j)`. */
  lemma {:induction false} RecidFields(atts: seq<Attachment>, uuid: nat -> string, start: nat, r: seq<Attachment>)
    requires r == Recid(atts, uuid, start)
    ensures Entries(r) == Entries(atts)
    ensures IdsFrom(r, uuid, start)
  {
    RecidEntries(atts, uuid, start);
    forall j | 0 <= j < |r|
      ensures r[j].cid == uuid(start + j)
    {
      RecidAt(atts, uuid, start, j);
    }
  }

  /** The k-th presented mail is the k-th mail presented with the ids after those of the mails before it. */
  lemma {:induction false} PresentAllAt(ms: seq<Mail>, base: string, total: nat, uuid: nat -> string, start: nat, k: nat)
    requires k < |ms|
    ensures PresentAll(ms, base, total, uuid, start)[k]
      == Presented(ms[k], base, total, uuid, start + |AllAttachments(ms[..k])|)
  {
    var before := ms[..|ms| - 1];
    if k < |before| {
      PresentAllAt(before, base, total, uuid, start, k);
      assert before[..k] == ms[..k];
    } else {
      assert ms[..k] == before;
    }
  }

  /** The k-th of all the presented mails keeps the files, size, size text and number of the k-th mail, and gets its subject and body. */
  lemma {:induction false} PresentAllFields(ms: seq<Mail>, base: string, total: nat, uuid: nat -> string, start: nat, k: nat)
    requires k < |ms|
    ensures var p := PresentAll(ms, base, total, uuid, start)[k];
      && Entries(p.attachments) == Entries(ms[k].attachments)
      && p.size == ms[k].size && p.sizeText == ms[k].sizeText && p.count == ms[k].count
      && p.subject == Some(Subject(base, ms[k].count, total))
      && p.html == Some(Html(p.attachments))
  {
    PresentAllAt(ms, base, total, uuid, start, k);
    PresentedFields(ms[k], base, total, uuid, start + |AllAttachments(ms[..k])|);
  }

  /** The ids of the k-th presented mail are drawn right after those of the mails before it, from draw `from` on. */
  lemma {:induction false} PresentAllIds(ms: seq<Mail>, base: string, total: nat, uuid: nat -> string, start: nat, k: nat,
                                         from: nat)
    requires k < |ms| && from == start + |AllAttachments(ms[..k])|
    ensures var p := PresentAll(ms, base, total, uuid, start)[k];
      IdsFrom(p.attachments, uuid, from)
  {
    PresentAllAt(ms, base, total, uuid, start, k);
    RecidFields(ms[k].attachments, uuid, from, PresentAll(ms, base, total, uuid, start)[k].attachments);
  }

  lemma {:induction false} PresentAllLast(ms: seq<Mail>, base: string, total: nat, uuid: nat -> string, start: nat)
    requires ms != []
    ensures PresentAll(ms, base, total, uuid, start)
      == PresentAll(ms[..|ms| - 1], base, total, uuid, start)
         + [Presented(ms[|ms| - 1], base, total, uuid, start + |AllAttachments(ms[..|ms| - 1])|)]
  {
  }

  /** Presenting keeps every file in place and draws fresh ids for all of them, one after another. */
  lemma {:induction false} PresentAllAttachments(ms: seq<Mail>, base: string, total: nat, uuid: nat -> string, start: nat)
    ensures AllAttachments(PresentAll(ms, base, total, uuid, start)) == Recid(AllAttachments(ms), uuid, start)
  {
    if ms != [] {
      var before := ms[..|ms| - 1];
      var p := PresentAll(ms, base, total, uuid, start);
      PresentAllAttachments(before, base, total, uuid, start);
      assert p[..|p| - 1] == PresentAll(before, base, total, uuid, start);
      assert AllAttachments(ms) == AllAttachments(before) + ms[|ms| - 1].attachments;
      RecidAppend(AllAttachments(before), ms[|ms| - 1].attachments, uuid, start);
    }
  }

  /** Presenting the k-th mail extends the presented prefix by one mail and moves the draw counter past its attachments. */
  lemma {:induction false} PresentStep(ms: seq<Mail>, base: string, total: nat, uuid: nat -> string, next: nat, k: nat,
                                       m: Mail, start: nat)
    requires k < |ms| && m == ms[k] && start == next + |AllAttachments(ms[..k])|
    ensures PresentAll(ms[..k + 1], base, total, uuid, next)
      == PresentAll(ms[..k], base, total, uuid, next) + [Presented(m, base, total, uuid, start)]
    ensures |AllAttachments(ms[..k + 1])| == |AllAttachments(ms[..k])| + |m.attachments|
  {
    assert ms[..k + 1][..k] == ms[..k];
    PresentAllLast(ms[..k + 1], base, total, uuid, next);
    AllAttachmentsPrefix(ms, k);
  }

  /** Replacing the first element after a prefix extends the prefix by the new element. */
  lemma ReplaceNext<T>(done: seq<T>, rest: seq<T>, x: T)
    requires rest != []
    ensures (done + rest)[|done| := x] == done + [x] + rest[1..]
  {
  }

  /**
   * The inner loop of index.js:98-102: gives each attachment the next id and
   * appends its fragment to the body.
   */
  method PresentAttachments(atts: seq<Attachment>, uuid: nat -> string, start: nat)
    returns (updated: seq<Attachment>, html: string)
    ensures updated == Recid(atts, uuid, start)
    ensures html == Html(updated)
  {
    updated := [];
    html := "";
    for j := 0 to |atts|
      invariant updated == Recid(atts[..j], uuid, start)
      invariant html == Html(updated)
    {
      var a := atts[j].(cid := uuid(start + j));
      assert atts[..j + 1][..j] == atts[..j];
      assert updated + [a] == Recid(atts[..j + 1], uuid, start);
      assert (updated + [a])[..|updated|] == updated;
      html := html + Fragment(a.file, a.cid);
      updated := updated + [a];
    }
    assert atts[..|atts|] == atts;
  }

  /** One pass of the outer loop body: the subject, then the attachments and the body. */
  method PresentMail(m: Mail, base: string, total: nat, uuid: nat -> string, start: nat) returns (p: Mail)
    ensures p == Presented(m, base, total, uuid, start)
  {
    var updated, html := PresentAttachments(m.attachments, uuid, start);
    p := m.(subject := Some(Subject(base, m.count, total)), attachments := updated, html := Some(html));
  }

  /**
   * The outer loop of index.js:95-104: presents every mail in place. The
   * first attachment's id is the generator's draw number `next`; `drawn` is
   * the number of the next draw afterwards.
   */
  method Present(mails: array<Mail>, base: string, uuid: nat -> string, next: nat) returns (drawn: nat)
    modifies mails
    ensures mails[..] == PresentAll(old(mails[..]), base, mails.Length, uuid, next)
    ensures drawn == next + |AllAttachments(old(mails[..]))|
  {
    ghost var ms := mails[..];
    drawn := next;
    for k := 0 to mails.Length
      invariant mails[..] == PresentAll(ms[..k], base, mails.Length, uuid, next) + ms[k..]
      invariant drawn == next + |AllAttachments(ms[..k])|
    {
      ghost var done := PresentAll(ms[..k], base, mails.Length, uuid, next);
      var m := mails[k];
      assert m == ms[k] by {
        assert mails[..][|done|] == ms[k..][0];
      }
      PresentStep(ms, base, mails.Length, uuid, next, k, m, drawn);
      var p := PresentMail(m, base, mails.Length, uuid, drawn);
      ghost var before := mails[..];
      ReplaceNext(done, ms[k..], p);
      assert ms[k..][1..] == ms[k + 1..];
      mails[k] := p;
      assert mails[..] == before[k := p];
      drawn := drawn + |m.attachments|;
    }
    assert ms[..mails.Length] == ms;
  }
}
