/** The document identifier: the name under which a PDF's images, payload
    and embeddings are stored and by which its vectors are tagged, derived
    from the PDF's URL (`PDFProcessor._extract_pdf_name`). */
module DocName {
  import opened Text
  import Constants

  /** Python's `str.isalnum()` on the Latin-1 range: ASCII letters and
      digits, the Latin-1 letters, the ordinal indicators, the micro sign,
      the superscript digits and the vulgar fractions. */
  predicate IsAlnum(c: char) {
    || '0' <= c <= '9' || 'A' <= c <= 'Z' || 'a' <= c <= 'z'
    || c == '\U{00AA}' || c == '\U{00B2}' || c == '\U{00B3}' || c == '\U{00B5}'
    || c == '\U{00B9}' || c == '\U{00BA}' || '\U{00BC}' <= c <= '\U{00BE}'
    || '\U{00C0}' <= c <= '\U{00D6}' || '\U{00D8}' <= c <= '\U{00F6}' || '\U{00F8}' <= c <= '\U{00FF}'
  }

  /** The characters a document name may hold. */
  predicate IsSafe(c: char) {
    IsAlnum(c) || c == '-' || c == '_' || c == '.'
  }

  predicate AllSafe(s: string) {
    forall i :: 0 <= i < |s| ==> IsSafe(s[i])
  }

  /** `s.lower().endswith(".pdf")`. */
  predicate EndsWithPdf(s: string) {
    && |s| >= Constants.PdfExtensionLength
    && s[|s| - 4] == '.'
    && (s[|s| - 3] == 'p' || s[|s| - 3] == 'P')
    && (s[|s| - 2] == 'd' || s[|s| - 2] == 'D')
    && (s[|s| - 1] == 'f' || s[|s| - 1] == 'F')
  }

  /** The generator-expression filter: the safe characters of `s`, in order. */
  function Sanitize(s: string): (r: string)
    ensures |r| <= |s|
    ensures AllSafe(r)
    ensures AllSafe(s) ==> r == s
  {
    if s == [] then []
    else Sanitize(s[..|s| - 1]) + (if IsSafe(s[|s| - 1]) then [s[|s| - 1]] else [])
  }

  /** Filtering works character by character: together with the ensures of
      `Sanitize` on one character, this pins `Sanitize` down completely. */
  lemma {:induction false} SanitizeConcat(a: string, b: string)
    ensures Sanitize(a + b) == Sanitize(a) + Sanitize(b)
    decreases |b|
  {
    if b == [] {
      assert a + b == a;
    } else {
      var b' := b[..|b| - 1];
      assert (a + b)[..|a + b| - 1] == a + b';
      SanitizeConcat(a, b');
    }
  }

  /** The URL's last path segment, cut at its query string, with one trailing
      `.pdf` (any case) removed. */
  function Stem(url: string): string {
    DropPdf(LastSegment(url))
  }

  /** The URL's last path segment, cut at its query string. */
  function LastSegment(url: string): string {
    BeforeFirst(AfterLast(url, '/'), '?')
  }

  /** `segment` without one trailing `.pdf` (any case). */
  function DropPdf(segment: string): string {
    if EndsWithPdf(segment) then segment[..|segment| - Constants.PdfExtensionLength] else segment
  }

  function ExtractPdfName(url: string): (name: string)
    ensures name != []
    ensures AllSafe(name)
    ensures Sanitize(Stem(url)) != [] ==> name == Sanitize(Stem(url))
    ensures Sanitize(Stem(url)) == [] ==> name == Constants.FallbackDocumentName
  {
    var cleaned := Sanitize(Stem(url));
    if cleaned == [] then Constants.FallbackDocumentName else cleaned
  }

  /** Only the last path segment before the query string matters: neither
      the scheme, host and directories in front nor the query behind it
      change the name (as long as the query holds no further `/`). */
  lemma NameIgnoresPathAndQuery(path: string, segment: string, query: string)
    requires '/' !in segment && '?' !in segment && '/' !in query
    ensures ExtractPdfName(path + ['/'] + segment + ['?'] + query) == ExtractPdfName(segment)
  {
    var url := path + ['/'] + segment + ['?'] + query;
    assert LastSegment(url) == segment by {
      assert url == path + ['/'] + (segment + ['?'] + query);
      SegmentOfUrl(path, segment, query);
    }
    assert LastSegment(segment) == segment by {
      AfterLastWithout(segment, '/');
      BeforeFirstWithout(segment, '?');
    }
  }

  /** The last path segment of `path/segment?query`, cut at its query. */
  lemma SegmentOfUrl(path: string, segment: string, query: string)
    requires '/' !in segment && '?' !in segment && '/' !in query
    ensures LastSegment(path + ['/'] + (segment + ['?'] + query)) == segment
  {
    var tail := segment + ['?'] + query;
    assert '/' !in tail by {
      forall i | 0 <= i < |tail| ensures tail[i] != '/' {
        if i < |segment| { assert tail[i] == segment[i]; }
        else if i > |segment| { assert tail[i] == query[i - |segment| - 1]; }
      }
    }
    AfterLastAfterSeparator(path, '/', tail);
    BeforeFirstBeforeSeparator(segment, '?', query);
  }

  /** A `/` inside the query string is taken for a path separator: the name
      comes from what follows that `/`, and the real file name is lost. */
  lemma SlashInQueryWins(path: string, segment: string, query: string, rest: string)
    requires '/' !in rest && '?' !in rest
    ensures ExtractPdfName(path + ['/'] + segment + ['?'] + query + ['/'] + rest) == ExtractPdfName(rest)
  {
    var url := path + ['/'] + segment + ['?'] + query + ['/'] + rest;
    assert LastSegment(url) == rest by {
      AfterLastAfterSeparator(path + ['/'] + segment + ['?'] + query, '/', rest);
      BeforeFirstWithout(rest, '?');
    }
    assert LastSegment(rest) == rest by {
      AfterLastWithout(rest, '/');
      BeforeFirstWithout(rest, '?');
    }
  }

  /** The `.pdf` suffix (in any case) is removed exactly once: a name that
      itself ends in `.pdf` keeps that inner suffix. */
  lemma StripsPdfOnce(name: string, extension: string)
    requires name != [] && AllSafe(name)
    requires |extension| == 4 && EndsWithPdf(extension)
    ensures ExtractPdfName(name + extension) == name
  {
    var s := name + extension;
    assert LastSegment(s) == s by {
      assert '/' !in s && '?' !in s by {
        forall i | 0 <= i < |s| ensures s[i] != '/' && s[i] != '?' {
          if i < |name| { assert s[i] == name[i] && IsSafe(name[i]); }
        }
      }
      AfterLastWithout(s, '/');
      BeforeFirstWithout(s, '?');
    }
    assert DropPdf(s) == name by {
      assert s[|s| - 4..] == extension;
      assert s[|s| - 4] == extension[0] && s[|s| - 3] == extension[1];
      assert s[|s| - 2] == extension[2] && s[|s| - 1] == extension[3];
      assert s[..|s| - 4] == name;
    }
  }

  /** A safe name that does not end in `.pdf` names itself. */
  lemma SafeNameIsFixedPoint(name: string)
    requires name != [] && AllSafe(name) && !EndsWithPdf(name)
    ensures ExtractPdfName(name) == name
  {
    assert '/' !in name && '?' !in name by {
      forall i | 0 <= i < |name| ensures name[i] != '/' && name[i] != '?' {
        assert IsSafe(name[i]);
      }
    }
    AfterLastWithout(name, '/');
    BeforeFirstWithout(name, '?');
  }

  /** When the stem has no safe character left, the fallback name is used. */
  lemma FallbackWhenNothingSafe(url: string)
    requires forall i :: 0 <= i < |Stem(url)| ==> !IsSafe(Stem(url)[i])
    ensures ExtractPdfName(url) == Constants.FallbackDocumentName
  {
    var s := Stem(url);
    if Sanitize(s) != [] {
      SanitizeOnlyKeeps(s, 0);
    }
  }

  /** Every character `Sanitize` keeps comes from its input. */
  lemma {:induction false} SanitizeOnlyKeeps(s: string, k: nat)
    requires k < |Sanitize(s)|
    ensures exists i :: 0 <= i < |s| && s[i] == Sanitize(s)[k]
    decreases |s|
  {
    var p := s[..|s| - 1];
    if k < |Sanitize(p)| {
      SanitizeOnlyKeeps(p, k);
      var i :| 0 <= i < |p| && p[i] == Sanitize(p)[k];
      assert s[i] == p[i];
    } else {
      assert Sanitize(s)[k] == s[|s| - 1];
    }
  }

  /** An unsafe character filters to nothing. */
  lemma SanitizeUnsafeChar(c: char)
    requires !IsSafe(c)
    ensures Sanitize([c]) == []
  {
    assert [c][..0] == [];
  }

  /** An unsafe character between two safe runs is dropped and the runs are
      joined. */
  lemma SanitizeDropsUnsafe(a: string, c: char, b: string)
    requires AllSafe(a) && AllSafe(b) && !IsSafe(c)
    ensures Sanitize(a + [c] + b) == a + b
  {
    SanitizeConcat(a + [c], b);
    assert Sanitize(a + [c]) == a by {
      SanitizeConcat(a, [c]);
      SanitizeUnsafeChar(c);
    }
  }
}
