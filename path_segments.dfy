/**
 * Turning a URL path into request segments (DefaultPathToPathSegments):
 * cut at the first `?`, split on `/`, drop the trailing empty parts, then
 * drop the first part (the empty text before the leading `/`).
 */
module PathSegments {

  /**
   * Splitting on one character, keeping every part, empty ones included:
   * `n` separators give `n + 1` parts.
   */
  function Split(s: string, sep: char): (r: seq<string>)
    ensures |r| >= 1
    decreases |s|
  {
    if |s| == 0 then [""]
    else
      var rest := Split(s[1..], sep);
      if s[0] == sep then [""] + rest
      else [[s[0]] + rest[0]] + rest[1..]
  }

  /** The parts glued back together with the separator between each two. */
  function Join(parts: seq<string>, sep: char): string
    requires |parts| >= 1
    decreases |parts|
  {
    if |parts| == 1 then parts[0] else parts[0] + [sep] + Join(parts[1..], sep)
  }

  /** The parts of a split hold no separator. */
  lemma {:induction false} SplitPartsFree(s: string, sep: char)
    ensures forall k :: 0 <= k < |Split(s, sep)| ==> sep !in Split(s, sep)[k]
    decreases |s|
  {
    if |s| > 0 {
      SplitPartsFree(s[1..], sep);
      var rest := Split(s[1..], sep);
      if s[0] != sep {
        var r := Split(s, sep);
        assert r[0] == [s[0]] + rest[0];
        forall k | 0 < k < |r| ensures sep !in r[k] {
          assert r[k] == rest[k];
        }
      }
    }
  }

  /** Splitting loses nothing: joining the parts rebuilds the text. */
  lemma {:induction false} JoinSplit(s: string, sep: char)
    ensures Join(Split(s, sep), sep) == s
    decreases |s|
  {
    if |s| > 0 {
      JoinSplit(s[1..], sep);
      var rest := Split(s[1..], sep);
      var r := Split(s, sep);
      if s[0] == sep {
        assert r[1..] == rest;
      } else {
        assert r[0] == [s[0]] + rest[0] && r[1..] == rest[1..];
        if |rest| > 1 {
          assert rest == [rest[0]] + rest[1..];
        }
      }
    }
  }

  /** A text with no separator is a single part. */
  lemma {:induction false} SplitFree(p: string, sep: char)
    requires sep !in p
    ensures Split(p, sep) == [p]
    decreases |p|
  {
    if |p| > 0 {
      assert sep !in p[1..] by {
        assert forall c :: c in p[1..] ==> c in p;
      }
      SplitFree(p[1..], sep);
      assert [p[0]] + p[1..] == p;
    }
  }

  /** A separator-free text followed by the separator makes the first part. */
  lemma {:induction false} SplitCons(p: string, sep: char, tail: string)
    requires sep !in p
    ensures Split(p + [sep] + tail, sep) == [p] + Split(tail, sep)
    decreases |p|
  {
    var s := p + [sep] + tail;
    if |p| == 0 {
      assert s[1..] == tail;
    } else {
      assert sep !in p[1..] by {
        assert forall c :: c in p[1..] ==> c in p;
      }
      SplitCons(p[1..], sep, tail);
      assert s[1..] == p[1..] + [sep] + tail;
      assert [p[0]] + p[1..] == p;
    }
  }

  /** Splitting inverts joining, when no part holds the separator. */
  lemma {:induction false} SplitJoin(parts: seq<string>, sep: char)
    requires |parts| >= 1
    requires forall k :: 0 <= k < |parts| ==> sep !in parts[k]
    ensures Split(Join(parts, sep), sep) == parts
    decreases |parts|
  {
    if |parts| == 1 {
      SplitFree(parts[0], sep);
    } else {
      SplitJoin(parts[1..], sep);
      SplitCons(parts[0], sep, Join(parts[1..], sep));
      assert [parts[0]] + parts[1..] == parts;
    }
  }

  /** The first part of a split is the text before the first separator. */
  lemma {:induction false} SplitHead(s: string, sep: char)
    ensures var h := Split(s, sep)[0];
      && sep !in h
      && (sep !in s ==> h == s)
      && (sep in s ==> |h| < |s| && s[..|h|] == h && s[|h|] == sep)
    decreases |s|
  {
    SplitPartsFree(s, sep);
    if |s| > 0 && s[0] != sep {
      SplitHead(s[1..], sep);
      assert sep in s <==> sep in s[1..] by {
        assert s == [s[0]] + s[1..];
      }
      if sep !in s {
        assert [s[0]] + s[1..] == s;
      }
    }
  }

  /** `dropLastWhile { it.isEmpty() }`. */
  function DropLastWhileEmpty(parts: seq<string>): (r: seq<string>)
    ensures |r| <= |parts| && r == parts[..|r|]
    ensures |r| > 0 ==> r[|r| - 1] != ""
    ensures forall k :: |r| <= k < |parts| ==> parts[k] == ""
    decreases |parts|
  {
    if |parts| == 0 then []
    else if parts[|parts| - 1] == "" then DropLastWhileEmpty(parts[..|parts| - 1])
    else parts
  }

  /** `extractPath`: the empty text as is, otherwise the text before the first `?`. */
  function ExtractPath(path: string): string {
    if |path| == 0 then path else Split(path, '?')[0]
  }

  /** `parse`: the request segments of a URL path. */
  function Parse(path: string): seq<string> {
    var parts := DropLastWhileEmpty(Split(ExtractPath(path), '/'));
    if |parts| == 0 then [] else parts[1..]
  }

  /** The extracted path is everything before the first `?`, or all of it. */
  lemma ExtractPathPrefix(path: string)
    ensures '?' !in ExtractPath(path)
    ensures '?' !in path ==> ExtractPath(path) == path
    ensures '?' in path ==>
      var e := ExtractPath(path);
      |e| < |path| && path[..|e|] == e && path[|e|] == '?'
  {
    SplitHead(path, '?');
  }

  /**
   * Every segment is free of `/` and `?`, and the last one, if any, is not
   * empty; inner empty segments are kept.
   */
  lemma ParseSegments(path: string)
    ensures forall k :: 0 <= k < |Parse(path)| ==> '/' !in Parse(path)[k] && '?' !in Parse(path)[k]
    ensures |Parse(path)| > 0 ==> Parse(path)[|Parse(path)| - 1] != ""
  {
    var e := ExtractPath(path);
    ExtractPathPrefix(path);
    SplitPartsFree(e, '/');
    JoinSplit(e, '/');
    var split := Split(e, '/');
    forall k | 0 <= k < |split| ensures '?' !in split[k] {
      PartOfJoin(split, '/', k);
    }
  }

  /** Each part is a piece of the joined text. */
  lemma {:induction false} PartOfJoin(parts: seq<string>, sep: char, k: nat)
    requires |parts| >= 1 && k < |parts|
    ensures forall c :: c in parts[k] ==> c in Join(parts, sep)
    decreases |parts|
  {
    if |parts| > 1 {
      var j := Join(parts, sep);
      assert j == parts[0] + [sep] + Join(parts[1..], sep);
      if k > 0 {
        PartOfJoin(parts[1..], sep, k - 1);
      }
    }
  }

  /** The URL path of a list of segments: each one after a `/`. */
  function Render(segs: seq<string>): string {
    Join([""] + segs, '/')
  }

  /**
   * Segments free of `/` and `?`, with a non-empty last one, survive
   * rendering and parsing back, with or without a query string appended.
   */
  lemma ParseRender(segs: seq<string>, query: string)
    requires forall k :: 0 <= k < |segs| ==> '/' !in segs[k] && '?' !in segs[k]
    requires |segs| > 0 ==> segs[|segs| - 1] != ""
    ensures Parse(Render(segs)) == segs
    ensures Parse(Render(segs) + "?" + query) == segs
  {
    var parts := [""] + segs;
    assert forall k :: 0 < k < |parts| ==> parts[k] == segs[k - 1];
    SplitJoin(parts, '/');
    var text := Render(segs);
    assert '?' !in text by {
      forall c | c in text ensures c != '?' {
        JoinCharsFrom(parts, '/', c);
      }
    }
    if |segs| > 0 {
      assert DropLastWhileEmpty(parts) == parts;
      assert parts[1..] == segs;
    } else {
      assert DropLastWhileEmpty(parts) == DropLastWhileEmpty([]);
    }
    if |text| > 0 {
      SplitFree(text, '?');
    }
    var withQuery := text + "?" + query;
    SplitCons(text, '?', query);
    assert text + ['?'] + query == withQuery;
  }

  lemma {:induction false} JoinSnoc(parts: seq<string>, sep: char, x: string)
    requires |parts| >= 1
    ensures Join(parts + [x], sep) == Join(parts, sep) + [sep] + x
    decreases |parts|
  {
    if |parts| == 1 {
      assert (parts + [x])[1..] == [x];
    } else {
      JoinSnoc(parts[1..], sep, x);
      assert (parts + [x])[1..] == parts[1..] + [x];
    }
  }

  /** A trailing `/` after the rendered segments adds no segment. */
  lemma ParseRenderTrailingSlash(segs: seq<string>)
    requires forall k :: 0 <= k < |segs| ==> '/' !in segs[k] && '?' !in segs[k]
    requires |segs| > 0 ==> segs[|segs| - 1] != ""
    ensures Parse(Render(segs) + "/") == segs
  {
    var parts := [""] + segs;
    var text := Render(segs) + "/";
    JoinSnoc(parts, '/', "");
    assert text == Join(parts + [""], '/');
    var all := parts + [""];
    assert forall k :: 0 < k < |all| - 1 ==> all[k] == segs[k - 1];
    SplitJoin(all, '/');
    assert '?' !in text by {
      forall c | c in text ensures c != '?' {
        JoinCharsFrom(all, '/', c);
      }
    }
    SplitFree(text, '?');
    assert all[..|all| - 1] == parts;
    if |segs| > 0 {
      assert DropLastWhileEmpty(all) == parts;
      assert parts[1..] == segs;
    } else {
      assert DropLastWhileEmpty(all) == DropLastWhileEmpty([""]) == DropLastWhileEmpty([]);
    }
  }

  /** Every character of a join is the separator or a character of some part. */
  lemma {:induction false} JoinCharsFrom(parts: seq<string>, sep: char, c: char)
    requires |parts| >= 1
    requires c in Join(parts, sep)
    ensures c == sep || exists k :: 0 <= k < |parts| && c in parts[k]
    decreases |parts|
  {
    if |parts| > 1 {
      var rest := Join(parts[1..], sep);
      assert Join(parts, sep) == parts[0] + [sep] + rest;
      if c !in parts[0] && c != sep {
        JoinCharsFrom(parts[1..], sep, c);
        var k :| 0 <= k < |parts[1..]| && c in parts[1..][k];
        assert parts[k + 1] == parts[1..][k];
      }
    }
  }

  lemma RenderProjectsId()
    ensures Render(["projects", "123"]) + "?" + "test" == "/projects/123?test"
  {
    var r := ["projects", "123"];
    assert r[1..] == ["123"];
    assert Join(r, '/') == r[0] + ['/'] + Join(r[1..], '/') == "projects/123";
    var p := [""] + r;
    assert p[1..] == r;
    assert Join(p, '/') == "" + ['/'] + Join(p[1..], '/') == "/projects/123";
  }

  /** The documented example: the query is cut off and the leading `/` gives no segment. */
  lemma ParseQueryExample()
    ensures Parse("/projects/123?test") == ["projects", "123"]
  {
    RenderProjectsId();
    ParseRender(["projects", "123"], "test");
  }

  /** Neither the empty path nor the bare root has a segment. */
  lemma ParseRootExamples()
    ensures Parse("") == [] && Parse("/") == []
  {
    assert Split("", '/') == [""];
    assert "/"[1..] == "";
    assert Split("/", '/') == ["", ""];
    SplitFree("/", '?');
  }

  /** An inner empty segment is kept. */
  lemma ParseInnerEmptyExample()
    ensures Parse("/a//b") == ["a", "", "b"]
  {
    var r2 := ["a", "", "b"];
    ParseRender(r2, "");
    assert ([""] + r2)[1..] == r2 && r2[1..] == ["", "b"] && r2[1..][1..] == ["b"];
    assert Join(r2[1..], '/') == "" + ['/'] + "b" == "/b";
    assert Join(r2, '/') == "a" + ['/'] + "/b" == "a//b";
    assert Render(r2) == "" + ['/'] + "a//b" == "/a//b";
  }

  /** A trailing `/` adds no segment. */
  lemma ParseTrailingSlashExample()
    ensures Parse("/projects/") == ["projects"]
  {
    var r := ["projects"];
    assert '/' !in "projects" && '?' !in "projects";
    ParseRenderTrailingSlash(r);
    var p := [""] + r;
    assert p[1..] == r && Join(r, '/') == "projects";
    assert Join(p, '/') == "" + ['/'] + "projects" == "/projects";
    assert Render(r) + "/" == "/projects/";
  }
}
