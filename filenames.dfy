/**
 * The upload filter `allowed_file` of FishFeeder-ML/app.py: a name is accepted when it
 * contains a dot and the text after its LAST dot, lowercased, is one of the allowed
 * image extensions.
 */
module Filenames {
  import opened Outcomes

  /** `ALLOWED_EXTENSIONS` */
  const AllowedExtensions: set<string> := {"jpg", "jpeg", "png"}

  /** Index of the last occurrence of `c` in `s`, if any. */
  function LastIndexOf(s: string, c: char): (r: Option<nat>)
    ensures r.None? <==> c !in s
    ensures r.Some? ==> r.value < |s| && s[r.value] == c && c !in s[r.value + 1..]
  {
    if |s| == 0 then None
    else if s[|s| - 1] == c then Some(|s| - 1)
    else
      var r := LastIndexOf(s[..|s| - 1], c);
      assert s == s[..|s| - 1] + [s[|s| - 1]];
      assert r.Some? ==> s[r.value + 1..] == s[..|s| - 1][r.value + 1..] + [s[|s| - 1]];
      r
  }

  /** The last occurrence is the only one with no further occurrence after it. */
  lemma LastIndexOfUnique(s: string, c: char, i: nat)
    requires i < |s| && s[i] == c && c !in s[i + 1..]
    ensures LastIndexOf(s, c) == Some(i)
  {
  }

  /** Python's `s.rsplit(sep, 1)`: the whole string, or the parts before and after the last `sep`. */
  function RSplitOnce(s: string, sep: char): (parts: seq<string>)
    ensures sep !in s ==> parts == [s]
    ensures sep in s ==> |parts| == 2 && s == parts[0] + [sep] + parts[1] && sep !in parts[1]
  {
    match LastIndexOf(s, sep)
    case None => [s]
    case Some(i) =>
      assert s == s[..i] + [sep] + s[i + 1..];
      [s[..i], s[i + 1..]]
  }

  /** Lowercase of one character; only the ASCII letters A-Z are folded. */
  function LowerChar(c: char): char
  {
    if 'A' <= c <= 'Z' then (c as int + 32) as char else c
  }

  /** `s.lower()`, folding each character with LowerChar. */
  function ToLower(s: string): string
  {
    seq(|s|, i requires 0 <= i < |s| => LowerChar(s[i]))
  }

  /** `allowed_file(filename)` */
  predicate AllowedFile(filename: string)
  {
    '.' in filename && ToLower(RSplitOnce(filename, '.')[1]) in AllowedExtensions
  }

  /** A name without a dot is always rejected. */
  lemma NoDotRejected(filename: string)
    requires '.' !in filename
    ensures !AllowedFile(filename)
  {
  }

  /**
   * The acceptance rule stated without rsplit: some dot is followed only by dot-free text
   * whose lowercase is an allowed extension.
   */
  lemma AllowedFileIff(filename: string)
    ensures AllowedFile(filename) <==>
      exists i :: 0 <= i < |filename| && filename[i] == '.' && '.' !in filename[i + 1..] &&
        ToLower(filename[i + 1..]) in AllowedExtensions
  {
    if '.' in filename {
      var i := LastIndexOf(filename, '.').value;
      assert RSplitOnce(filename, '.')[1] == filename[i + 1..];
      forall k | 0 <= k < |filename| && filename[k] == '.' && '.' !in filename[k + 1..]
        ensures k == i
      {
        LastIndexOfUnique(filename, '.', k);
      }
    }
  }

  /** Only the text after the last dot decides: everything before it is ignored. */
  lemma LastSuffixDecides(base: string, ext: string)
    requires '.' !in ext
    ensures AllowedFile(base + "." + ext) <==> ToLower(ext) in AllowedExtensions
  {
    var f := base + "." + ext;
    assert f[|base|] == '.';
    assert f[|base| + 1..] == ext;
    LastIndexOfUnique(f, '.', |base|);
    assert RSplitOnce(f, '.')[1] == ext;
  }

  /** A name ending in a dot has an empty extension and is rejected. */
  lemma TrailingDotRejected(base: string)
    ensures !AllowedFile(base + ".")
  {
    assert base + "." == base + "." + "";
    LastSuffixDecides(base, "");
  }

  lemma ToLowerSuffix(s: string, k: nat)
    requires k <= |s|
    ensures ToLower(s[k..]) == ToLower(s)[k..]
  {
  }

  /** Lowercasing moves no dot: names that agree after lowercasing have their dots in the same places. */
  lemma SameDots(f: string, g: string)
    requires ToLower(f) == ToLower(g)
    ensures |f| == |g|
    ensures forall k :: 0 <= k < |f| ==> (f[k] == '.' <==> g[k] == '.')
  {
    forall k | 0 <= k < |f| ensures f[k] == '.' <==> g[k] == '.' {
      assert LowerChar(f[k]) == ToLower(f)[k] == ToLower(g)[k] == LowerChar(g[k]);
    }
  }

  /** Two names that agree up to letter case are accepted or rejected together. */
  lemma CaseInsensitive(f: string, g: string)
    requires ToLower(f) == ToLower(g)
    ensures AllowedFile(f) <==> AllowedFile(g)
  {
    SameDots(f, g);
    if '.' in f {
      var i := LastIndexOf(f, '.').value;
      assert '.' !in g[i + 1..] by {
        forall k | i + 1 <= k < |g| ensures g[k] != '.' {
          assert f[i + 1..][k - i - 1] == f[k];
        }
      }
      LastIndexOfUnique(g, '.', i);
      ToLowerSuffix(f, i + 1);
      ToLowerSuffix(g, i + 1);
      assert RSplitOnce(f, '.')[1] == f[i + 1..];
      assert RSplitOnce(g, '.')[1] == g[i + 1..];
    } else {
      assert '.' !in g by {
        forall k | 0 <= k < |g| ensures g[k] != '.' {
          assert f[k] != '.';
        }
      }
    }
  }

  /** A name is accepted exactly when its lowercase is. */
  lemma LowercaseDecides(f: string)
    ensures AllowedFile(f) <==> AllowedFile(ToLower(f))
  {
    assert ToLower(ToLower(f)) == ToLower(f);
    CaseInsensitive(f, ToLower(f));
  }

  /** Text without upper-case ASCII letters is its own lowercase. */
  lemma ToLowerOfLower(s: string)
    requires forall i :: 0 <= i < |s| ==> !('A' <= s[i] <= 'Z')
    ensures ToLower(s) == s
  {
  }

  // The examples below take one literal name per lemma: the verifier unfolds `AllowedFile`
  // on a literal cheaply only one name at a time, so the grouped lemmas just combine them.

  lemma GifAfterJpgRefused()
    ensures !AllowedFile("photo.jpg.gif")
  {
    assert "gif" !in AllowedExtensions;
    ToLowerOfLower("gif");
    assert "photo.jpg.gif" == "photo.jpg" + "." + "gif";
    LastSuffixDecides("photo.jpg", "gif");
  }

  lemma JpgAfterGifAccepted()
    ensures AllowedFile("photo.gif.jpg")
  {
    ToLowerOfLower("jpg");
    assert "photo.gif.jpg" == "photo.gif" + "." + "jpg";
    LastSuffixDecides("photo.gif", "jpg");
  }

  /** Only the text after the last dot is tested. */
  lemma LastDotExamples()
    ensures AllowedFile("photo.gif.jpg") && !AllowedFile("photo.jpg.gif")
  {
    JpgAfterGifAccepted();
    GifAfterJpgRefused();
  }

  lemma UpperJpgAccepted()
    ensures AllowedFile("X.JPG")
  {
    assert ToLower("JPG") == "jpg";
    assert "X.JPG" == "X" + "." + "JPG";
    LastSuffixDecides("X", "JPG");
  }

  lemma MixedPngAccepted()
    ensures AllowedFile("x.Png")
  {
    assert ToLower("Png") == "png";
    assert "x.Png" == "x" + "." + "Png";
    LastSuffixDecides("x", "Png");
  }

  lemma JpegAccepted()
    ensures AllowedFile("x.jpeg")
  {
    ToLowerOfLower("jpeg");
    assert "x.jpeg" == "x" + "." + "jpeg";
    LastSuffixDecides("x", "jpeg");
  }

  /** The extension is compared without regard to case. */
  lemma CaseExamples()
    ensures AllowedFile("X.JPG") && AllowedFile("x.Png") && AllowedFile("x.jpeg")
  {
    UpperJpgAccepted();
    MixedPngAccepted();
    JpegAccepted();
  }

  lemma GifRefused()
    ensures !AllowedFile("photo.gif")
  {
    assert "gif" !in AllowedExtensions;
    ToLowerOfLower("gif");
    assert "photo.gif" == "photo" + "." + "gif";
    LastSuffixDecides("photo", "gif");
  }

  lemma TrailingDotExample()
    ensures !AllowedFile("photo.")
  {
    assert "photo." == "photo" + ".";
    TrailingDotRejected("photo");
  }

  /** A trailing dot, a disallowed extension and a missing dot are all refused. */
  lemma RejectionExamples()
    ensures !AllowedFile("photo.") && !AllowedFile("photo.gif") && !AllowedFile("photo")
  {
    TrailingDotExample();
    GifRefused();
    NoDotRejected("photo");
  }
}
