/** Classification of files by extension: the editor language handed to the
    editing widget, and the icon the explorer shows. */
module FileTypes {
  import opened Paths

  /** `languageMap`: extension to editor language. */
  const LanguageMap: map<string, string> := map[
    "js" := "javascript",
    "html" := "html",
    "css" := "css",
    "py" := "python",
    "json" := "json",
    "md" := "markdown"
  ]

  /** The fallback of `getLanguage`. */
  const PlainText: string := "plaintext"

  /** The fallback of `getFileIcon`. */
  const DefaultIcon: string := "ri-file-line"

  /** `getLanguage`: the mapped language of the extension, or "plaintext". */
  function GetLanguage(fileName: string): (r: string)
    ensures r in LanguageMap.Values || r == PlainText
    ensures r == PlainText <==> Extension(fileName) !in LanguageMap
    ensures r != PlainText ==> r == LanguageMap[Extension(fileName)]
  {
    LanguageFor(Extension(fileName))
  }

  function LanguageFor(extension: string): (r: string)
    ensures r in LanguageMap.Values || r == PlainText
    ensures r == PlainText <==> extension !in LanguageMap
    ensures r != PlainText ==> r == LanguageMap[extension]
  {
    assert PlainText !in LanguageMap.Values;
    if extension in LanguageMap then LanguageMap[extension] else PlainText
  }

  /** `getFileIcon`: a `switch` over the extension. */
  function GetFileIcon(fileName: string): (r: string)
    ensures r == DefaultIcon <==> Extension(fileName) !in LanguageMap
  {
    IconFor(Extension(fileName))
  }

  function IconFor(extension: string): (r: string)
    ensures r == DefaultIcon <==> extension !in LanguageMap
    ensures extension == "js" ==> r == "ri-javascript-fill"
    ensures extension == "html" ==> r == "ri-html5-fill"
    ensures extension == "css" ==> r == "ri-css3-fill"
    ensures extension == "json" ==> r == "ri-json-fill"
    ensures extension == "py" ==> r == "ri-file-code-fill"
    ensures extension == "md" ==> r == "ri-markdown-fill"
  {
    if extension == "js" then "ri-javascript-fill"
    else if extension == "html" then "ri-html5-fill"
    else if extension == "css" then "ri-css3-fill"
    else if extension == "json" then "ri-json-fill"
    else if extension == "py" then "ri-file-code-fill"
    else if extension == "md" then "ri-markdown-fill"
    else DefaultIcon
  }

  /** The two tables know the same extensions: a file gets the default icon
      exactly when it gets no language. */
  lemma IconMatchesLanguage(fileName: string)
    ensures GetFileIcon(fileName) == DefaultIcon <==> GetLanguage(fileName) == PlainText
  {
  }

  lemma {:induction false} ToLowerIdempotent(s: string)
    ensures ToLower(ToLower(s)) == ToLower(s)
  {
    var t := ToLower(s);
    assert forall i :: 0 <= i < |s| ==> LowerChar(t[i]) == t[i];
    assert ToLower(t) == t;
  }

  lemma ToLowerSlice(s: string, k: nat)
    requires k <= |s|
    ensures ToLower(s)[k..] == ToLower(s[k..])
  {
    var a, b := ToLower(s)[k..], ToLower(s[k..]);
    assert |a| == |b|;
    forall i | 0 <= i < |a| ensures a[i] == b[i] {
      assert a[i] == LowerChar(s[k + i]);
    }
  }

  /** Lower-casing leaves every `.` where it was. */
  lemma LastDotOfLower(s: string)
    ensures LastIndexOf(ToLower(s), '.') == LastIndexOf(s, '.')
  {
    var t := ToLower(s);
    var j := LastIndexOf(s, '.');
    if j >= 0 {
      assert t[j] == '.';
      assert '.' !in t[j + 1..] by {
        forall k | j + 1 <= k < |t| ensures t[k] != '.' {
          assert s[k] != '.';
        }
      }
      LastIndexOfIs(t, '.', j);
    } else {
      assert '.' !in t by {
        forall k | 0 <= k < |t| ensures t[k] != '.' {
          assert s[k] != '.';
        }
      }
      LastIndexOfAppend("", t, '.');
      assert "" + t == t;
    }
  }

  /** The language and the icon do not depend on letter case. */
  lemma CaseInsensitive(fileName: string)
    ensures Extension(ToLower(fileName)) == Extension(fileName)
    ensures GetLanguage(ToLower(fileName)) == GetLanguage(fileName)
    ensures GetFileIcon(ToLower(fileName)) == GetFileIcon(fileName)
  {
    var t := ToLower(fileName);
    var j := LastIndexOf(fileName, '.');
    LastDotOfLower(fileName);
    ToLowerSlice(fileName, j + 1);
    ToLowerIdempotent(fileName[j + 1..]);
  }

  /** Only the text after the last `.` matters: any stem, with or without
      dots or folders in it, followed by `.` and an extension. */
  lemma ExtensionAfterLastDot(stem: string, ext: string)
    requires '.' !in ext
    ensures Extension(stem + "." + ext) == ToLower(ext)
  {
    var s := stem + "." + ext;
    assert s[|stem|] == '.';
    assert s[|stem| + 1..] == ext;
    LastIndexOfIs(s, '.', |stem|);
  }

  /** A file name ending in `.JS`, after any stem, is JavaScript. */
  lemma UpperCaseJs(stem: string)
    ensures GetLanguage(stem + ".JS") == "javascript"
    ensures GetFileIcon(stem + ".JS") == "ri-javascript-fill"
  {
    LowerLiteral("JS", "js");
    ExtensionAfterLastDot(stem, "JS");
    assert stem + ".JS" == stem + "." + "JS";
    var e := Extension(stem + ".JS");
    assert e == "js";
    assert LanguageFor("js") == "javascript";
  }

  lemma LowerLiteral(s: string, t: string)
    requires |s| == |t| && forall i :: 0 <= i < |s| ==> LowerChar(s[i]) == t[i]
    ensures ToLower(s) == t
  {
  }

  /** A name without a dot is its own extension: `Makefile` is plain text,
      while a file named just `PY` is classified as Python. */
  lemma NoDotName(fileName: string)
    requires '.' !in fileName
    ensures Extension(fileName) == ToLower(fileName)
  {
    LastIndexOfAppend("", fileName, '.');
    assert "" + fileName == fileName;
  }
}
