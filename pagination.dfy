/** Both converters emit a page's elements and then, unless the page is the last,
    a page break. */
module Pagination {

  /** The flow after the first `k` pages: each page's elements, each followed by a
      page break unless it is the document's last page. */
  function Paginated<E>(pages: seq<seq<E>>, k: nat, pageBreak: E): seq<E>
    requires k <= |pages|
  {
    if k == 0 then []
    else Paginated(pages, k - 1, pageBreak) + pages[k - 1]
         + (if k - 1 < |pages| - 1 then [pageBreak] else [])
  }

  /** Reference definition: the pages with one page break between neighbours. */
  function Separated<E>(pages: seq<seq<E>>, pageBreak: E): seq<E> {
    if pages == [] then []
    else if |pages| == 1 then pages[0]
    else Separated(pages[..|pages| - 1], pageBreak) + [pageBreak] + pages[|pages| - 1]
  }

  function Count<E(==)>(s: seq<E>, e: E): nat {
    if s == [] then 0 else Count(s[..|s| - 1], e) + (if s[|s| - 1] == e then 1 else 0)
  }

  lemma {:induction false} CountConcat<E>(a: seq<E>, b: seq<E>, e: E)
    ensures Count(a + b, e) == Count(a, e) + Count(b, e)
  {
    if b != [] {
      assert (a + b)[..|a + b| - 1] == a + b[..|b| - 1];
      CountConcat(a, b[..|b| - 1], e);
    } else {
      assert a + b == a;
    }
  }

  lemma {:induction false} CountAbsent<E>(s: seq<E>, e: E)
    requires e !in s
    ensures Count(s, e) == 0
  {
    if s != [] { CountAbsent(s[..|s| - 1], e); }
  }

  /** A page break follows every page but the last: the emitted flow is the pages
      separated by single page breaks. */
  lemma {:induction false} PaginatedIsSeparated<E>(pages: seq<seq<E>>, k: nat, pageBreak: E)
    requires k <= |pages|
    ensures k < |pages| ==> Paginated(pages, k, pageBreak)
                            == if k == 0 then [] else Separated(pages[..k], pageBreak) + [pageBreak]
    ensures k == |pages| ==> Paginated(pages, k, pageBreak) == Separated(pages, pageBreak)
  {
    if k > 0 {
      PaginatedIsSeparated(pages, k - 1, pageBreak);
      var pre := pages[..k];
      assert pre[..k - 1] == pages[..k - 1];
      if k == |pages| { assert pre == pages; }
    }
  }

  /** When no page holds a page break itself, a document of n >= 1 pages gets exactly
      n - 1 page breaks, and the flow ends with the last page's own elements. */
  lemma {:induction false} SeparatedBreaks<E>(pages: seq<seq<E>>, pageBreak: E)
    requires forall i :: 0 <= i < |pages| ==> pageBreak !in pages[i]
    ensures pages != [] ==> Count(Separated(pages, pageBreak), pageBreak) == |pages| - 1
    ensures pages != [] ==> var r := Separated(pages, pageBreak);
                            var last := pages[|pages| - 1];
                            |last| <= |r| && r[|r| - |last|..] == last
  {
    if pages != [] {
      var last := pages[|pages| - 1];
      CountAbsent(last, pageBreak);
      if |pages| > 1 {
        var init := pages[..|pages| - 1];
        SeparatedBreaks(init, pageBreak);
        CountConcat(Separated(init, pageBreak) + [pageBreak], last, pageBreak);
        CountConcat(Separated(init, pageBreak), [pageBreak], pageBreak);
        var one: seq<E> := [pageBreak];
        assert one[..0] == [];
        assert Count(one, pageBreak) == 1;
      }
    }
  }
}
