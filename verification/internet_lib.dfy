/** `my_lib/internet_lib.py`: `get_file_name_from_url`, the string surgery that names a
    downloaded file after its URL. Percent-decoding (`urllib.parse.unquote`) is not
    interpreted: it is passed in as `unquote`. */
module InternetLib {
  import opened Text

  /** `url.split("/")[-1]`: the text after the last `'/'`. */
  function LastSegment(url: string): string {
    var parts := Split(url, '/');
    parts[|parts| - 1]
  }

  /** The last piece of the split is what follows the last `'/'`. */
  lemma LastSegmentIsAfterLast(url: string)
    ensures LastSegment(url) == AfterLast(url, '/')
  {
    LastSplitIsAfterLast(url, '/');
  }

  /** `name[: name.find("?")]` when there is a `'?'`: the longest prefix without one. */
  function BeforeQuery(seg: string): (stem: string)
    ensures |stem| <= |seg| && stem == seg[..|stem|] && '?' !in stem
    ensures |stem| == |seg| || seg[|stem|] == '?'
  {
    var q := Find(seg, '?');
    if q < 0 then seg else seg[..q]
  }

  /** The last path segment up to the query string. */
  function Stem(url: string): (stem: string)
    ensures '/' !in stem && '?' !in stem
  {
    LastSegmentIsAfterLast(url);
    BeforeQuery(LastSegment(url))
  }

  /** The `b_html` step: a non-empty name without a `'.'` gets `".html"`. */
  function WithHtml(name: string, bHtml: bool): (r: string)
    ensures |r| >= |name| && r[..|name|] == name
    ensures r != name <==> name != [] && bHtml && '.' !in name
    ensures r != name ==> r[|name|..] == ".html"
  {
    if name != [] && bHtml && '.' !in name then name + ".html" else name
  }

  /** `get_file_name_from_url(url, b_html)`. */
  function FileNameFromUrl(url: string, bHtml: bool, unquote: string -> string): (name: string)
    ensures name != []
    ensures Stem(url) == [] ==> name == "index.html"
    ensures '%' !in Stem(url) && Stem(url) != [] ==> name == WithHtml(Stem(url), bHtml)
    ensures '%' in Stem(url) ==>
              var decoded := unquote(WithHtml(Stem(url), bHtml));
              name == if decoded == [] then "index.html" else decoded
  {
    var named := WithHtml(Stem(url), bHtml);
    var decoded := if '%' in named then unquote(named) else named;
    if decoded == [] then "index.html" else decoded
  }

  /** Without a `'%'` there is no decoding, and the name is a plain file name: no `'/'`, no
      `'?'`. */
  lemma PlainNameIsFileName(url: string, bHtml: bool, unquote: string -> string)
    requires '%' !in Stem(url)
    ensures var name := FileNameFromUrl(url, bHtml, unquote);
            '/' !in name && '?' !in name
  {
    var s := Stem(url);
    PlainChars();
    if s != [] && WithHtml(s, bHtml) != s {
      Absent(s, ".html", '/');
      Absent(s, ".html", '?');
    }
  }

  lemma PlainChars()
    ensures '/' !in ".html" && '?' !in ".html" && '/' !in "index.html" && '?' !in "index.html"
  {
  }

  lemma Absent(a: string, b: string, c: char)
    requires c !in a && c !in b
    ensures c !in a + b
  {
    assert forall k :: 0 <= k < |a + b| ==> (a + b)[k] == if k < |a| then a[k] else b[k - |a|];
  }

  /** Only the last path segment matters: whatever comes before a `'/'` is ignored. */
  lemma LastSegmentOnly(prefix: string, rest: string, bHtml: bool, unquote: string -> string)
    ensures FileNameFromUrl(prefix + "/" + rest, bHtml, unquote)
            == FileNameFromUrl(rest, bHtml, unquote)
  {
    AfterLastSkipsPrefix(prefix, '/', rest);
    LastSegmentIsAfterLast(prefix + "/" + rest);
    LastSegmentIsAfterLast(rest);
  }

  /** A URL naming a directory gives `"index.html"`, whatever `b_html` says. */
  lemma DirectoryUrl(url: string, bHtml: bool, unquote: string -> string)
    requires |url| > 0 && url[|url| - 1] == '/'
    ensures FileNameFromUrl(url, bHtml, unquote) == "index.html"
  {
    LastSegmentIsAfterLast(url);
  }
}
