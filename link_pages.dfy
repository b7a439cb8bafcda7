/** The "number" branch of `wp_link_pages` (post-template.php lines
    583-608): for each page `i` from 1 to `$numpages` it appends a space,
    an optional opening anchor, `$link_before`, `$pagelink` with `%`
    replaced by `i`, `$link_after` and the matching closing anchor,
    between `$before` and `$after`. The link targets come from WordPress
    URL helpers; the model keeps which helper is chosen and takes the
    resulting URL text as a parameter. */
module LinkPages {
  import opened Php

  /** The arguments the loop reads after `wp_parse_args`. */
  datatype Args = Args(before: string, after: string, linkBefore: string, linkAfter: string, pagelink: string)

  /** The defaults of lines 568-574 for the fields above (with `Pages:`
      untranslated). */
  const Defaults := Args("<p>Pages:", "</p>", "", "", "%")

  /** The globals `$page`, `$numpages`, `$multipage` and `$more`. */
  datatype Paging = Paging(page: int, numpages: int, multipage: bool, more: bool)

  /** What the link target depends on: the `permalink_structure` option,
      the post's status, the `show_on_front` option and whether
      `page_on_front` names this post. */
  datatype Permalinks = Permalinks(structure: string, status: string, showOnFront: string, isFrontPage: bool)

  /** Which URL helper builds the link to page `i` (lines 590-598). */
  datatype Target = Permalink | QueryArg(i: int) | FrontPaged(i: int) | Paged(i: int)

  function TargetOf(i: int, pl: Permalinks): Target
  {
    if i == 1 then Permalink
    else if pl.structure == "" || pl.status in ["draft", "pending"] then QueryArg(i)
    else if pl.showOnFront == "page" && pl.isFrontPage then FrontPaged(i)
    else Paged(i)
  }

  /** `($i != $page) || ((!$more) && ($page == 1))`: the condition for both
      the opening and the closing anchor. */
  predicate Linked(i: int, page: int, more: bool)
  {
    i != page || (!more && page == 1)
  }

  /** `str_replace('%', $i, $pagelink)`. */
  function Label(pagelink: string, i: nat): string
  {
    StrReplace("%", Decimal(i), pagelink)
  }

  function OpenTag(i: int, pl: Permalinks, href: Target -> string): string
  {
    "<a href=\"" + href(TargetOf(i, pl)) + "\">"
  }

  /** What iteration `i` appends: a space, the opening anchor when the page
      is linked, `$link_before`, the label, `$link_after`, and the closing
      anchor under the same condition. */
  function Item(args: Args, g: Paging, pl: Permalinks, href: Target -> string, i: nat): string
  {
    if Linked(i, g.page, g.more) then
      " " + OpenTag(i, pl, href) + args.linkBefore + Label(args.pagelink, i) + args.linkAfter + "</a>"
    else
      " " + args.linkBefore + Label(args.pagelink, i) + args.linkAfter
  }

  /** What iterations 1 to `n` append, in order. */
  function Items(args: Args, g: Paging, pl: Permalinks, href: Target -> string, n: nat): string
  {
    if n == 0 then "" else Items(args, g, pl, href, n - 1) + Item(args, g, pl, href, n)
  }

  /** How many times the loop body runs: `$i` goes from 1 while
      `$i < $numpages + 1`. */
  function Pages(g: Paging): nat
  {
    if g.numpages < 0 then 0 else g.numpages
  }

  /** The output of the "number" branch. */
  function NumberedLinks(args: Args, g: Paging, pl: Permalinks, href: Target -> string): string
  {
    if !g.multipage then "" else args.before + Items(args, g, pl, href, Pages(g)) + args.after
  }

  /** How many of pages 1 to `n` get an anchor. */
  function LinkedCount(n: nat, page: int, more: bool): nat
  {
    if n == 0 then 0 else LinkedCount(n - 1, page, more) + (if Linked(n, page, more) then 1 else 0)
  }

  /** The loop of lines 586-607. The ghost counters record each `<a` and
      each `</a>` appended. */
  method NumberedLoop(args: Args, g: Paging, pl: Permalinks, href: Target -> string)
    returns (output: string, ghost opens: nat, ghost closes: nat)
    ensures output == NumberedLinks(args, g, pl, href)
    ensures g.multipage ==> opens == closes == LinkedCount(Pages(g), g.page, g.more)
    ensures !g.multipage ==> opens == closes == 0
  {
    output := "";
    opens, closes := 0, 0;
    if g.multipage {
      output := output + args.before;
      var i := 1;
      while i < g.numpages + 1
        invariant 1 <= i <= Pages(g) + 1
        invariant output == args.before + Items(args, g, pl, href, i - 1)
        invariant opens == closes == LinkedCount(i - 1, g.page, g.more)
      {
        ghost var anchorOpen, anchorClose;
        output, anchorOpen, anchorClose := Iteration(args, g, pl, href, i, output);
        opens, closes := opens + anchorOpen, closes + anchorClose;
        AppendAssoc(args.before, Items(args, g, pl, href, i - 1), Item(args, g, pl, href, i));
        i := i + 1;
      }
      output := output + args.after;
    }
  }

  /** The body of the loop for page `i` (lines 587-606): it appends `Item`,
      opening an anchor exactly when it closes one. */
  method Iteration(args: Args, g: Paging, pl: Permalinks, href: Target -> string, i: nat, output: string)
    returns (output': string, ghost anchorOpen: nat, ghost anchorClose: nat)
    ensures output' == output + Item(args, g, pl, href, i)
    ensures anchorOpen == anchorClose == if Linked(i, g.page, g.more) then 1 else 0
  {
    ghost var piece := "";
    anchorOpen, anchorClose := 0, 0;
    var j := Label(args.pagelink, i);
    output', piece := Append(output, piece, output, " ");
    assert piece == " ";
    if Linked(i, g.page, g.more) {
      output', piece := Append(output, piece, output', OpenTag(i, pl, href));
      anchorOpen := 1;
    }
    output', piece := Append(output, piece, output', args.linkBefore);
    output', piece := Append(output, piece, output', j);
    output', piece := Append(output, piece, output', args.linkAfter);
    if Linked(i, g.page, g.more) {
      output', piece := Append(output, piece, output', "</a>");
      anchorClose := 1;
    }
    assert piece == Item(args, g, pl, href, i);
  }

  /** `$output .= $x`, with the ghost record of what this iteration has
      appended so far. */
  method Append(ghost prev: string, ghost piece: string, output: string, x: string)
    returns (output': string, ghost piece': string)
    requires output == prev + piece
    ensures output' == output + x && piece' == piece + x
    ensures output' == prev + piece'
  {
    output' := output + x;
    piece' := piece + x;
    AppendAssoc(prev, piece, x);
  }

  lemma AppendAssoc(a: string, b: string, c: string)
    ensures a + b + c == a + (b + c)
  {
  }

  /** Every page but the current one gets an anchor, except that on the
      first page's teaser view (`!$more` and `$page == 1`) all do. */
  lemma {:induction false} LinkedCountClosedForm(n: nat, page: int, more: bool)
    ensures LinkedCount(n, page, more) == if 1 <= page <= n && (more || page != 1) then n - 1 else n
  {
    if n > 0 {
      LinkedCountClosedForm(n - 1, page, more);
    }
  }

  /** A label never keeps a `%`: each one is replaced by the page number. */
  lemma LabelReplaced(pagelink: string, i: nat)
    ensures '%' !in Label(pagelink, i)
  {
    assert forall k :: 0 <= k < |Decimal(i)| ==> Decimal(i)[k] != '%';
    StrReplaceRemoves('%', Decimal(i), pagelink);
  }

  /** With the default `pagelink` the label is the page number in decimal,
      and reads back as `i`. */
  lemma DefaultLabel(i: nat)
    ensures Label(Defaults.pagelink, i) == Decimal(i)
    ensures DigitsValue(Label(Defaults.pagelink, i)) == i
  {
    assert Defaults.pagelink == "%";
    assert "%"[..1] == "%";
    assert StrReplace("%", Decimal(i), "%"[1..]) == [];
    assert Decimal(i) + [] == Decimal(i);
    DecimalValue(i);
  }

  /** A label is the pagelink with each `%` replaced, independently of
      the text around it. */
  lemma LabelSplits(a: string, b: string, i: nat)
    ensures Label(a + b, i) == Label(a, i) + Label(b, i)
  {
    StrReplaceChar('%', Decimal(i), a, b);
  }

  /** Outside a multi-page post the branch outputs nothing. */
  lemma SinglePage(args: Args, g: Paging, pl: Permalinks, href: Target -> string)
    requires !g.multipage
    ensures NumberedLinks(args, g, pl, href) == ""
  {
  }
}
