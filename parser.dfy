/** `DocumentParser`: picks a text extractor by file extension and, for HTML, strips the
    markup. The extractors themselves (reading the file, `pdf-parse`, `mammoth`) are outside
    the model: their outcome is a parameter. */
module Parser {
  import opened Wrappers
  import opened Text
  import opened Sequences
  import opened NodePath
  import opened Indexer

  /** The four `parse*` methods. */
  datatype Extractor = Pdf | Docx | PlainText | Html

  /** The `switch` of `parse` on the lower-cased `path.extname`; anything not listed is read as
      plain text. */
  function ExtractorFor(filePath: string): (e: Extractor)
    ensures e != PlainText ==> IsSupportedFile(filePath)
  {
    ExtractorOf(Lower(Extname(filePath)))
  }

  /** The `case` labels, matched against an already lower-cased extension. */
  function ExtractorOf(ext: string): (e: Extractor)
    ensures e != PlainText ==> ext in SupportedExtensions
  {
    if ext == ".pdf" then Pdf
    else if ext == ".docx" || ext == ".doc" then Docx
    else if ext == ".html" then Html
    else PlainText
  }

  lemma LowerIdempotent(s: string)
    ensures Lower(Lower(s)) == Lower(s)
  {
  }

  /** The extractor of `stem.ext` depends only on the extension, in any letter case. */
  lemma ExtractorByExtension(stem: string, ext: string)
    requires stem != [] && '/' !in stem && '/' !in ext
    requires |ext| >= 2 && ext[0] == '.' && '.' !in ext[1..]
    ensures ExtractorFor(stem + ext) == ExtractorFor(stem + Lower(ext))
  {
    var low := Lower(ext);
    assert low[0] == '.';
    assert '/' !in low && '.' !in low[1..] by {
      forall k | 0 <= k < |low| ensures low[k] != '/' && (k > 0 ==> low[k] != '.') {
        assert low[k] == LowerChar(ext[k]);
        if k > 0 { assert ext[k] == ext[1..][k - 1]; }
      }
    }
    ExtnameOfName(stem, ext);
    ExtnameOfName(stem, low);
    LowerIdempotent(ext);
  }

  /** A `.pptx` file is indexed, yet `parse` has no case for it and reads it as plain text. */
  lemma PresentationReadAsPlainText(stem: string)
    requires stem != [] && '/' !in stem
    ensures IsSupportedFile(stem + ".pptx") && ExtractorFor(stem + ".pptx") == PlainText
  {
    PresentationExtension(stem);
    PresentationCase();
  }

  lemma PresentationExtension(stem: string)
    requires stem != [] && '/' !in stem
    ensures Lower(Extname(stem + ".pptx")) == ".pptx"
  {
    var ext := ".pptx";
    assert '/' !in ext && '.' !in ext[1..];
    ExtnameOfName(stem, ext);
    LowerOfLowercase(ext);
  }

  lemma LowerOfLowercase(s: string)
    requires forall i :: 0 <= i < |s| ==> !('A' <= s[i] <= 'Z')
    ensures Lower(s) == s
  {
  }

  lemma PresentationCase()
    ensures ".pptx" in SupportedExtensions && ExtractorOf(".pptx") == PlainText
  {
    var ext := ".pptx";
    assert SupportedExtensions[6] == ext;
    assert ext[1] == 'p' && ".docx"[1] == 'd' && ".html"[1] == 'h';
    assert |ext| != |".pdf"| && |ext| != |".doc"|;
  }

  /** No `<` is followed, anywhere later, by a `>`: nothing the tag pattern could match. */
  predicate TagFree(s: string) {
    s == [] || ((s[0] == '<' ==> '>' !in s[1..]) && TagFree(s[1..]))
  }

  lemma {:induction false} TagFreeMeans(s: string)
    ensures TagFree(s) <==> forall i, j :: 0 <= i < j < |s| && s[i] == '<' ==> s[j] != '>'
  {
    if s != [] {
      TagFreeMeans(s[1..]);
      if TagFree(s) {
        forall i, j | 0 <= i < j < |s| && s[i] == '<' ensures s[j] != '>' {
          if i == 0 {
            assert s[j] == s[1..][j - 1];
          } else {
            assert s[i] == s[1..][i - 1] && s[j] == s[1..][j - 1];
          }
        }
      } else if s[0] == '<' && '>' in s[1..] {
        var j :| 0 <= j < |s[1..]| && s[1..][j] == '>';
        assert s[j + 1] == '>';
      } else {
        var i, j :| 0 <= i < j < |s[1..]| && s[1..][i] == '<' && s[1..][j] == '>';
        assert s[i + 1] == '<' && s[j + 1] == '>';
      }
    }
  }

  /** `replace(/<[^>]*>/g, ' ')`: from left to right, a `<` with a `>` somewhere after it
      starts a tag that runs to the first such `>`, and the whole tag becomes one space. */
  function ReplaceTags(s: string): (r: string)
    ensures |r| <= |s|
    decreases |s|
  {
    if s == [] then []
    else if s[0] == '<' && '>' in s[1..] then
      var j := IndexOf(s, '>');
      assert j < |s| by { assert '>' in s; }
      " " + ReplaceTags(s[j + 1..])
    else [s[0]] + ReplaceTags(s[1..])
  }

  /** Text without any `>` is left alone. */
  lemma {:induction false} ReplaceTagsWithoutClose(s: string)
    requires '>' !in s
    ensures ReplaceTags(s) == s
  {
    if s != [] {
      assert s[1..] == s[1..];
      assert '>' !in s[1..];
      ReplaceTagsWithoutClose(s[1..]);
    }
  }

  /** After the replacement no tag is left. */
  lemma {:induction false} ReplaceTagsTagFree(s: string)
    ensures TagFree(ReplaceTags(s))
    decreases |s|
  {
    if s != [] {
      if s[0] == '<' && '>' in s[1..] {
        var j := IndexOf(s, '>');
        assert '>' in s;
        ReplaceTagsTagFree(s[j + 1..]);
        var r := ReplaceTags(s[j + 1..]);
        assert (" " + r)[1..] == r;
      } else {
        ReplaceTagsTagFree(s[1..]);
        var r := ReplaceTags(s[1..]);
        assert ([s[0]] + r)[1..] == r;
        if s[0] == '<' {
          ReplaceTagsWithoutClose(s[1..]);
        }
      }
    }
  }

  /** Text with no tag in it comes back unchanged. */
  lemma {:induction false} ReplaceTagsOfTagFree(s: string)
    requires TagFree(s)
    ensures ReplaceTags(s) == s
  {
    if s != [] {
      ReplaceTagsOfTagFree(s[1..]);
      assert s == [s[0]] + s[1..];
    }
  }

  /** Text before the first tag is kept, the tag becomes one space, and the rest is processed
      on its own. */
  lemma {:induction false} ReplaceTagsAtTag(before: string, tag: string, after: string)
    requires '<' !in before && '>' !in tag
    ensures ReplaceTags(before + "<" + tag + ">" + after) == before + " " + ReplaceTags(after)
  {
    var s := before + "<" + tag + ">" + after;
    if before == [] {
      assert s == "<" + tag + ">" + after;
      ReplaceTagsAtLeadingTag(tag, after);
    } else {
      assert s[0] == before[0] && s[0] != '<';
      assert s[1..] == before[1..] + "<" + tag + ">" + after;
      ReplaceTagsAtTag(before[1..], tag, after);
    }
  }

  lemma ReplaceTagsAtLeadingTag(tag: string, after: string)
    requires '>' !in tag
    ensures ReplaceTags("<" + tag + ">" + after) == " " + ReplaceTags(after)
  {
    var s := "<" + tag + ">" + after;
    assert s[1..] == tag + ">" + after;
    assert '>' in s[1..] by { assert s[1..][|tag|] == '>'; }
    var j := IndexOf(s, '>');
    assert s[1 + |tag|] == '>';
    assert j == 1 + |tag| by {
      assert '>' !in s[..1 + |tag|] by {
        assert s[..1 + |tag|] == "<" + tag;
      }
    }
    assert s[j + 1..] == after;
  }

  /** The tag-free condition sees only the non-whitespace characters. */
  lemma {:induction false} TagFreeNonSpace(s: string)
    ensures TagFree(s) <==> TagFree(NonSpace(s))
  {
    if s != [] {
      TagFreeNonSpace(s[1..]);
      NonSpaceMember(s[1..], '>');
      if !IsSpace(s[0]) {
        assert ([s[0]] + NonSpace(s[1..]))[1..] == NonSpace(s[1..]);
      }
    }
  }

  /** Normalising whitespace cannot create a tag. */
  lemma CollapseKeepsTagFree(s: string)
    requires TagFree(s)
    ensures TagFree(CollapseWhitespace(s))
  {
    TagFreeNonSpace(s);
    TagFreeNonSpace(CollapseWhitespace(s));
  }

  /** What `parseHTML` makes of the file's text: no tag is left, no whitespace at either end
      and no two whitespace characters in a row, and every other non-space character of the
      tag-stripped text is kept, in order. */
  function ParseHtml(content: string): (r: string)
    ensures TagFree(r)
    ensures SingleSpaced(r)
    ensures Trimmed(r)
    ensures NonSpace(r) == NonSpace(ReplaceTags(content))
  {
    var stripped := ReplaceTags(content);
    var r := CollapseWhitespace(stripped);
    assert TagFree(r) by {
      ReplaceTagsTagFree(content);
      CollapseKeepsTagFree(stripped);
    }
    r
  }

  /** `parseHTML` joins the maximal whitespace-free runs of the tag-stripped text with single
      spaces. */
  lemma ParseHtmlJoinsFields(content: string)
    ensures ParseHtml(content) == Join(Fields(ReplaceTags(content)), " ")
  {
    CollapseJoinsFields(ReplaceTags(content));
  }

  /** For text without tags `parseHTML` only normalises whitespace. */
  lemma ParseHtmlOfTagFree(content: string)
    requires TagFree(content)
    ensures ParseHtml(content) == CollapseWhitespace(content)
  {
    ReplaceTagsOfTagFree(content);
  }

  /** `parse(filePath)`. `extracted(e)` is what extractor `e` yields for the file, `None` when it
      throws (unreadable file, malformed PDF or Word document); each `parse*` then returns `''`. */
  function Parse(filePath: string, extracted: Extractor -> Option<string>): (r: string)
    ensures extracted(ExtractorFor(filePath)).None? ==> r == ""
    ensures extracted(ExtractorFor(filePath)).Some? && ExtractorFor(filePath) != Html ==>
              r == extracted(ExtractorFor(filePath)).value
    ensures extracted(ExtractorFor(filePath)).Some? && ExtractorFor(filePath) == Html ==>
              r == ParseHtml(extracted(ExtractorFor(filePath)).value)
  {
    var e := ExtractorFor(filePath);
    match extracted(e)
    case None => ""
    case Some(text) => if e == Html then ParseHtml(text) else text
  }
}
