/**
 * The file-name filter of index.js:41 and index.js:58: the pattern
 * `\.(gif|jpe?g|tiff?|png|webp|bmp)$` with the case-insensitive flag.
 */
module ImageFilter {
  import opened Wrappers

  /** The extensions the pattern accepts, with its optional letters spelled out. */
  const IMAGE_EXTENSIONS: set<string> := {"gif", "jpg", "jpeg", "tif", "tiff", "png", "webp", "bmp"}

  /**
   * Case folding as the `i` flag performs it against a pattern of ASCII letters:
   * only ASCII letters fold (without the `u` flag no other character folds onto one).
   */
  function Lower(c: char): char {
    if 'A' <= c <= 'Z' then (c as int + 32) as char else c
  }

  function LowerString(s: string): string {
    seq(|s|, i requires 0 <= i < |s| => Lower(s[i]))
  }

  /** `s` ends with `suffix` once its ASCII letters are folded to lower case, compared from the end. */
  predicate EndsWithIgnoringCase(s: string, suffix: string)
    decreases |suffix|
  {
    if suffix == [] then true
    else
      s != [] && Lower(s[|s| - 1]) == suffix[|suffix| - 1]
      && EndsWithIgnoringCase(s[..|s| - 1], suffix[..|suffix| - 1])
  }

  lemma {:induction false} EndsWithIgnoringCaseIff(s: string, suffix: string)
    ensures EndsWithIgnoringCase(s, suffix) <==> |suffix| <= |s| && LowerString(s[|s| - |suffix|..]) == suffix
    decreases |suffix|
  {
    if suffix != [] && s != [] {
      var s', x' := s[..|s| - 1], suffix[..|suffix| - 1];
      EndsWithIgnoringCaseIff(s', x');
      if |suffix| <= |s| {
        var t := s[|s| - |suffix|..];
        assert t == s'[|s'| - |x'|..] + [s[|s| - 1]];
        assert LowerString(t) == LowerString(s'[|s'| - |x'|..]) + [Lower(s[|s| - 1])];
        assert suffix == x' + [suffix[|suffix| - 1]];
      }
    }
  }

  /**
   * The suffixes the pattern matches, ignoring case: a '.', one alternative
   * (with `jpe?g` and `tiff?` spelled out), then the end of the name (`$`
   * without the multiline flag matches only at the very end).
   */
  const IMAGE_SUFFIXES: seq<string> := [".gif", ".jpg", ".jpeg", ".tif", ".tiff", ".png", ".webp", ".bmp"]

  predicate EndsWithAny(name: string, suffixes: seq<string>) {
    suffixes != [] && (EndsWithIgnoringCase(name, suffixes[0]) || EndsWithAny(name, suffixes[1..]))
  }

  /** The filter test of index.js:58. */
  predicate IsImageName(name: string) {
    EndsWithAny(name, IMAGE_SUFFIXES)
  }

  lemma {:induction false} EndsWithAnyIff(name: string, suffixes: seq<string>)
    ensures EndsWithAny(name, suffixes) <==> exists i :: 0 <= i < |suffixes| && EndsWithIgnoringCase(name, suffixes[i])
  {
    if suffixes != [] {
      EndsWithAnyIff(name, suffixes[1..]);
      if exists i :: 0 <= i < |suffixes| && EndsWithIgnoringCase(name, suffixes[i]) {
        var i :| 0 <= i < |suffixes| && EndsWithIgnoringCase(name, suffixes[i]);
        if i > 0 {
          assert suffixes[1..][i - 1] == suffixes[i];
        }
      }
      if exists i :: 0 <= i < |suffixes[1..]| && EndsWithIgnoringCase(name, suffixes[1..][i]) {
        var i :| 0 <= i < |suffixes[1..]| && EndsWithIgnoringCase(name, suffixes[1..][i]);
        assert suffixes[i + 1] == suffixes[1..][i];
      }
    }
  }

  /** The text after the last '.' of a name, or None when it has no '.'. */
  function Extension(name: string): Option<string>
  {
    if name == [] then None
    else if name[|name| - 1] == '.' then Some([])
    else match Extension(name[..|name| - 1])
      case None => None
      case Some(x) => Some(x + [name[|name| - 1]])
  }

  lemma {:induction false} ExtensionAfterLastDot(p: string, x: string)
    requires '.' !in x
    ensures Extension(p + ['.'] + x) == Some(x)
    decreases |x|
  {
    var name := p + ['.'] + x;
    if x != [] {
      var x' := x[..|x| - 1];
      assert name[..|name| - 1] == p + ['.'] + x';
      ExtensionAfterLastDot(p, x');
      assert x' + [x[|x| - 1]] == x;
    }
  }

  lemma {:induction false} ExtensionIsSuffix(name: string)
    requires Extension(name).Some?
    ensures |Extension(name).value| < |name|
    ensures name[|name| - |Extension(name).value| - 1] == '.'
    ensures name[|name| - |Extension(name).value|..] == Extension(name).value
    ensures '.' !in Extension(name).value
  {
    if name[|name| - 1] != '.' {
      var p := name[..|name| - 1];
      ExtensionIsSuffix(p);
      var x := Extension(p).value;
      assert name[|name| - |x| - 1..] == p[|p| - |x|..] + [name[|name| - 1]];
    }
  }

  lemma {:induction false} LowerStringSnoc(x: string, c: char)
    ensures LowerString(x + [c]) == LowerString(x) + [Lower(c)]
  {
    assert LowerString(x + [c])[|x|] == Lower(c);
  }

  /** Ending in '.' + e ignoring case is the same as having e, ignoring case, as extension. */
  lemma {:induction false} EndsWithDotExtension(name: string, e: string)
    requires '.' !in e
    ensures EndsWithIgnoringCase(name, "." + e)
        <==> Extension(name).Some? && LowerString(Extension(name).value) == e
    decreases |e|
  {
    if name != [] && e != [] {
      var p, c := name[..|name| - 1], name[|name| - 1];
      var e', d := e[..|e| - 1], e[|e| - 1];
      assert ("." + e)[..|"." + e| - 1] == "." + e';
      EndsWithDotExtension(p, e');
      if c != '.' && Extension(p).Some? {
        LowerStringSnoc(Extension(p).value, c);
        assert e == e' + [d];
      }
    }
  }

  /**
   * The filter accepts a name exactly when the text after its last '.' is,
   * ignoring case, one of the image extensions.
   */
  lemma {:induction false} FilterIsExtensionTest(name: string)
    ensures IsImageName(name)
        <==> Extension(name).Some? && LowerString(Extension(name).value) in IMAGE_EXTENSIONS
  {
    EndsWithAnyIff(name, IMAGE_SUFFIXES);
    assert IMAGE_SUFFIXES[0] == ".gif" && IMAGE_SUFFIXES[1] == ".jpg" && IMAGE_SUFFIXES[2] == ".jpeg";
    assert IMAGE_SUFFIXES[3] == ".tif" && IMAGE_SUFFIXES[4] == ".tiff" && IMAGE_SUFFIXES[5] == ".png";
    assert IMAGE_SUFFIXES[6] == ".webp" && IMAGE_SUFFIXES[7] == ".bmp";
    if IsImageName(name) {
      var i :| 0 <= i < |IMAGE_SUFFIXES| && EndsWithIgnoringCase(name, IMAGE_SUFFIXES[i]);
      assert i in {0, 1, 2, 3, 4, 5, 6, 7};
    }
    assert IsImageName(name) <==>
      || EndsWithIgnoringCase(name, ".gif") || EndsWithIgnoringCase(name, ".jpg")
      || EndsWithIgnoringCase(name, ".jpeg") || EndsWithIgnoringCase(name, ".tif")
      || EndsWithIgnoringCase(name, ".tiff") || EndsWithIgnoringCase(name, ".png")
      || EndsWithIgnoringCase(name, ".webp") || EndsWithIgnoringCase(name, ".bmp");
    assert "." + "gif" == ".gif" && "." + "jpg" == ".jpg" && "." + "jpeg" == ".jpeg";
    assert "." + "tif" == ".tif" && "." + "tiff" == ".tiff" && "." + "png" == ".png";
    assert "." + "webp" == ".webp" && "." + "bmp" == ".bmp";
    EndsWithDotExtension(name, "gif");
    EndsWithDotExtension(name, "jpg");
    EndsWithDotExtension(name, "jpeg");
    EndsWithDotExtension(name, "tif");
    EndsWithDotExtension(name, "tiff");
    EndsWithDotExtension(name, "png");
    EndsWithDotExtension(name, "webp");
    EndsWithDotExtension(name, "bmp");
    if Extension(name).Some? {
      var ext := LowerString(Extension(name).value);
      assert ext in IMAGE_EXTENSIONS <==>
        ext == "gif" || ext == "jpg" || ext == "jpeg" || ext == "tif" ||
        ext == "tiff" || ext == "png" || ext == "webp" || ext == "bmp";
    }
  }
}
