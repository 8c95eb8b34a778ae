/**
 * The HTML body a mail carries (index.js:97-103): one fragment per attachment,
 * in order, naming the file and showing it inline through its content id.
 */
module HtmlBody {
  import opened Mails

  /** The fragment index.js:101 appends for one attachment. */
  function Fragment(name: string, cid: string): string {
    name + ":<br><img src=\"cid:" + cid + "\"><br><br>"
  }

  /** The body after appending the fragments of `atts`, in order, to the empty string. */
  function Html(atts: seq<Attachment>): string {
    if atts == [] then ""
    else Html(atts[..|atts| - 1]) + Fragment(atts[|atts| - 1].file, atts[|atts| - 1].cid)
  }

  /**
   * The number of places at which `t` occurs in `s`, counted by where each
   * occurrence ends; the empty string is not counted.
   */
  function Occurrences(t: string, s: string): nat {
    if t == [] || |s| < |t| then 0
    else Occurrences(t, s[..|s| - 1]) + (if s[|s| - |t|..] == t then 1 else 0)
  }

  /** The characters of a version-4 UUID in its canonical text form. */
  predicate UuidChar(c: char) {
    '0' <= c <= '9' || 'a' <= c <= 'f' || c == '-'
  }

  /** Shaped like the text form of a UUID: 36 characters, hexadecimal digits and hyphens. */
  predicate IsUuid(t: string) {
    |t| == 36 && forall i :: 0 <= i < |t| ==> UuidChar(t[i])
  }

  /** How many of the attachments carry the content id `t`. */
  function CidCount(atts: seq<Attachment>, t: string): nat {
    if atts == [] then 0
    else CidCount(atts[..|atts| - 1], t) + (if atts[|atts| - 1].cid == t then 1 else 0)
  }

  lemma {:induction false} HtmlAppend(a: seq<Attachment>, b: seq<Attachment>)
    ensures Html(a + b) == Html(a) + Html(b)
    decreases |b|
  {
    if b == [] {
      assert a + b == a;
    } else {
      var b' := b[..|b| - 1];
      assert (a + b)[..|a + b| - 1] == a + b';
      HtmlAppend(a, b');
    }
  }

  /** The body is empty exactly when there is no attachment, and otherwise ends with the closing '>'. */
  lemma {:induction false} HtmlEmpty(atts: seq<Attachment>)
    ensures Html(atts) == [] <==> atts == []
    ensures atts != [] ==> Html(atts)[|Html(atts)| - 1] == '>'
  {
  }

  /**
   * The fragment of the j-th attachment sits in the body right after the
   * fragments of the attachments before it.
   */
  lemma {:induction false} HtmlFragmentAt(atts: seq<Attachment>, j: nat)
    requires j < |atts|
    ensures var before := |Html(atts[..j])|;
      var f := Fragment(atts[j].file, atts[j].cid);
      before + |f| <= |Html(atts)| && Html(atts)[before..before + |f|] == f
  {
    assert atts == atts[..j] + [atts[j]] + atts[j + 1..];
    HtmlAppend(atts[..j] + [atts[j]], atts[j + 1..]);
    HtmlAppend(atts[..j], [atts[j]]);
    assert [atts[j]][..0] == [];
  }

  lemma {:induction false} OccurrencesLast(t: string, s: string)
    requires t != [] && |t| <= |s|
    ensures Occurrences(t, s) == Occurrences(t, s[..|s| - 1]) + (if s[|s| - |t|..] == t then 1 else 0)
  {
  }

  /** An occurrence cannot run across a character that no UUID contains. */
  lemma {:induction false} OccurrencesSplit(t: string, x: string, b: char, y: string)
    requires t != [] && forall i :: 0 <= i < |t| ==> UuidChar(t[i])
    requires !UuidChar(b)
    ensures Occurrences(t, x + [b] + y) == Occurrences(t, x) + Occurrences(t, y)
    decreases |y|
  {
    var s := x + [b] + y;
    if |s| < |t| {
      OccurrencesShort(t, s);
      OccurrencesShort(t, x);
      OccurrencesShort(t, y);
    } else if y == [] {
      OccurrencesLast(t, s);
      assert s[..|s| - 1] == x;
      assert s[|s| - |t|..] != t by {
        assert s[|s| - |t|..][|t| - 1] == b && UuidChar(t[|t| - 1]);
      }
      OccurrencesShort(t, y);
    } else {
      var y' := y[..|y| - 1];
      OccurrencesLast(t, s);
      assert s[..|s| - 1] == x + [b] + y';
      OccurrencesSplit(t, x, b, y');
      if |t| <= |y| {
        OccurrencesLast(t, y);
        assert s[|s| - |t|..] == y[|y| - |t|..];
      } else {
        assert s[|s| - |t|..] != t by {
          var i := |t| - |y| - 1;
          assert s[|s| - |t|..][i] == b && UuidChar(t[i]);
        }
        OccurrencesShort(t, y);
        OccurrencesShort(t, y');
      }
    }
  }

  lemma {:induction false} OccurrencesShort(t: string, s: string)
    requires |s| < |t|
    ensures Occurrences(t, s) == 0
  {
  }

  lemma {:induction false} OccurrencesSameLength(t: string, s: string)
    requires |s| == |t| && t != []
    ensures Occurrences(t, s) == if s == t then 1 else 0
  {
    assert s[..|s| - 1] == s[..|s| - 1];
    assert s[|s| - |t|..] == s;
  }

  /** A fragment holds `t` once if it references `t` and the file name does not hold it. */
  lemma {:induction false} FragmentOccurrences(t: string, name: string, cid: string)
    requires IsUuid(t) && IsUuid(cid)
    ensures Occurrences(t, Fragment(name, cid)) == Occurrences(t, name) + (if cid == t then 1 else 0)
  {
    var a := "<br><img src=\"cid";
    var b := "><br><br>";
    assert Fragment(name, cid) == (name + [':'] + a) + [':'] + cid + ['"'] + b;
    OccurrencesSplit(t, (name + [':'] + a) + [':'] + cid, '"', b);
    OccurrencesSplit(t, name + [':'] + a, ':', cid);
    OccurrencesSplit(t, name, ':', a);
    OccurrencesShort(t, a);
    OccurrencesShort(t, b);
    OccurrencesSameLength(t, cid);
  }

  /** Nothing is counted across the '>' that closes a body. */
  lemma {:induction false} OccurrencesAfterTag(t: string, h: string, f: string)
    requires IsUuid(t)
    requires h == [] || h[|h| - 1] == '>'
    ensures Occurrences(t, h + f) == Occurrences(t, h) + Occurrences(t, f)
  {
    if h == [] {
      assert h + f == f;
      OccurrencesShort(t, h);
    } else {
      var h' := h[..|h| - 1];
      assert h == h' + ['>'] + [];
      assert h + f == h' + ['>'] + f;
      OccurrencesSplit(t, h', '>', []);
      OccurrencesSplit(t, h', '>', f);
      OccurrencesShort(t, []);
    }
  }

  /**
   * When every content id is shaped like a UUID and no file name contains `t`,
   * `t` occurs in the body once for each attachment that carries it.
   */
  lemma {:induction false} HtmlOccurrences(atts: seq<Attachment>, t: string)
    requires IsUuid(t)
    requires forall k :: 0 <= k < |atts| ==> IsUuid(atts[k].cid) && Occurrences(t, atts[k].file) == 0
    ensures Occurrences(t, Html(atts)) == CidCount(atts, t)
  {
    if atts != [] {
      var a := atts[..|atts| - 1];
      var x := atts[|atts| - 1];
      HtmlOccurrences(a, t);
      FragmentOccurrences(t, x.file, x.cid);
      HtmlEmpty(a);
      OccurrencesAfterTag(t, Html(a), Fragment(x.file, x.cid));
    }
  }

  /** An id carried by exactly one attachment is counted once. */
  lemma {:induction false} CidCountDistinct(atts: seq<Attachment>, j: nat)
    requires j < |atts|
    requires forall k, l :: 0 <= k < l < |atts| ==> atts[k].cid != atts[l].cid
    ensures CidCount(atts, atts[j].cid) == 1
  {
    var a := atts[..|atts| - 1];
    if j < |a| {
      CidCountDistinct(a, j);
    } else {
      CidCountAbsent(a, atts[j].cid);
    }
  }

  lemma {:induction false} CidCountAbsent(atts: seq<Attachment>, t: string)
    requires forall k :: 0 <= k < |atts| ==> atts[k].cid != t
    ensures CidCount(atts, t) == 0
  {
    if atts != [] {
      CidCountAbsent(atts[..|atts| - 1], t);
    }
  }

  /**
   * Each attachment's content id appears in the body exactly once, provided
   * the ids are UUID-shaped and pairwise distinct and no file name contains one.
   */
  lemma {:induction false} CidAppearsOnce(atts: seq<Attachment>, j: nat)
    requires j < |atts|
    requires forall k :: 0 <= k < |atts| ==> IsUuid(atts[k].cid)
    requires forall k, l :: 0 <= k < l < |atts| ==> atts[k].cid != atts[l].cid
    requires forall k, l :: 0 <= k < |atts| && 0 <= l < |atts| ==> Occurrences(atts[l].cid, atts[k].file) == 0
    ensures Occurrences(atts[j].cid, Html(atts)) == 1
  {
    HtmlOccurrences(atts, atts[j].cid);
    CidCountDistinct(atts, j);
  }
}
