/**
 * The pieces both generators share: the `reduce` that folds records into
 * listing text, the entry layout with its 140-character body snippet, the
 * count placeholder, and the listing under its heading.
 */
module Listing {
  import opened Wrappers
  import opened Decimal
  import opened Text

  const SnippetLength: nat := 140

  /** `bodyText.substr(0, 140)`. */
  function Snippet(body: string): string {
    Prefix(body, SnippetLength)
  }

  /** `[title](url)` */
  function TitleLink(title: string, url: string): string {
    "[" + title + "](" + url + ")"
  }

  /** Closes every entry: the ellipsis, then two line breaks. */
  const EntryEnd: string := "...<br /><br />"

  /** `${titleWithLink}<br />[${details}<br />]${truncatedBody}...<br /><br />` */
  function Entry(titleLink: string, details: Option<string>, snippet: string): string {
    match details
    case None => titleLink + "<br />" + snippet + EntryEnd
    case Some(d) => titleLink + "<br />" + d + "<br />" + snippet + EntryEnd
  }

  /** An entry opens with its title link, and the link shows the title right after `[`. */
  lemma EntryOpensWithTitle(title: string, url: string, details: Option<string>, snippet: string)
    ensures Entry(TitleLink(title, url), details, snippet)[0] == '['
    ensures Entry(TitleLink(title, url), details, snippet)[1..1 + |title|] == title
  {
    var link := TitleLink(title, url);
    var e := Entry(link, details, snippet);
    assert e[..|link|] == link;
    assert link == "[" + title + ("](" + url + ")");
    assert link[1..1 + |title|] == title;
    assert e[1..1 + |title|] == link[1..1 + |title|];
  }

  /** The entry a stale listing renders: link, then the unescaped snippet. */
  function PlainEntry(title: string, url: string, body: string): string {
    Entry(TitleLink(title, url), None, Snippet(body))
  }

  /** Where the snippet starts inside a plain entry. */
  function PlainSnippetStart(title: string, url: string): nat {
    |TitleLink(title, url)| + 6
  }

  /**
   * A plain entry is the link, the body's first 140 characters (all of a
   * body no longer than that), and the closing ellipsis, in that order.
   */
  lemma PlainEntryLayout(title: string, url: string, body: string)
    ensures var e := PlainEntry(title, url, body);
            var k := PlainSnippetStart(title, url);
            var n := if |body| <= SnippetLength then |body| else SnippetLength;
            && |e| == k + n + |EntryEnd|
            && e[..k] == TitleLink(title, url) + "<br />"
            && e[1..1 + |title|] == title
            && e[k..k + n] == body[..n]
            && (|body| <= SnippetLength ==> e[k..k + n] == body)
            && e[k + n..] == EntryEnd
  {
    var e := PlainEntry(title, url, body);
    var k := PlainSnippetStart(title, url);
    var sn := Snippet(body);
    assert e == (TitleLink(title, url) + "<br />") + sn + EntryEnd;
    assert e[k..k + |sn|] == sn;
    assert TitleLink(title, url) == "[" + title + ("](" + url + ")");
  }

  /** What a truthy-or-'no' template renders for a count: the number, or `no` when it is 0. */
  function CountPlaceholder(n: nat): (s: string)
    ensures s == "no" <==> n == 0
    ensures n != 0 ==> AllDigits(s) && ParseNat(s) == n
  {
    if n != 0 then
      ParseNatToString(n);
      NatToString(n)
    else "no"
  }

  /**
   * `nodes.reduce((mem, val) => mem + entry(val), mem)`: the fold only
   * appends, never altering the text it starts from.
   */
  function Reduce<T>(mem: string, nodes: seq<T>, entry: T -> string): (r: string)
    ensures mem <= r
    ensures |nodes| == 0 ==> r == mem
    decreases |nodes|
  {
    if |nodes| == 0 then mem
    else
      var r := Reduce(mem + entry(nodes[0]), nodes[1..], entry);
      assert (mem + entry(nodes[0]))[..|mem|] == mem;
      r
  }

  /** One entry per node, in node order: the reference for `Reduce`. */
  function Entries<T>(nodes: seq<T>, entry: T -> string): (es: seq<string>)
    ensures |es| == |nodes|
    decreases |nodes|
  {
    if |nodes| == 0 then [] else [entry(nodes[0])] + Entries(nodes[1..], entry)
  }

  lemma {:induction false} EntriesAppend<T>(a: seq<T>, b: seq<T>, entry: T -> string)
    ensures Entries(a + b, entry) == Entries(a, entry) + Entries(b, entry)
    decreases |a|
  {
    if |a| == 0 {
      assert a + b == b;
    } else {
      assert (a + b)[1..] == a[1..] + b;
      EntriesAppend(a[1..], b, entry);
    }
  }

  /** The fold appends exactly the concatenation of the per-node entries, in node order. */
  lemma {:induction false} ReduceIsConcat<T>(mem: string, nodes: seq<T>, entry: T -> string)
    ensures Reduce(mem, nodes, entry) == mem + Concat(Entries(nodes, entry))
    decreases |nodes|
  {
    if |nodes| > 0 {
      ReduceIsConcat(mem + entry(nodes[0]), nodes[1..], entry);
      var es := Entries(nodes, entry);
      assert es == [entry(nodes[0])] + Entries(nodes[1..], entry);
      assert es[1..] == Entries(nodes[1..], entry);
    }
  }

  /** The listing body: the fold started from the empty string. */
  function ListingText<T>(nodes: seq<T>, entry: T -> string): string {
    Reduce("", nodes, entry)
  }

  lemma ListingEmpty<T>(entry: T -> string)
    ensures ListingText([], entry) == ""
  {
  }

  /** Listing two runs of nodes is listing each in turn. */
  lemma ListingAppend<T>(a: seq<T>, b: seq<T>, entry: T -> string)
    ensures ListingText(a + b, entry) == ListingText(a, entry) + ListingText(b, entry)
  {
    ReduceIsConcat("", a + b, entry);
    ReduceIsConcat("", a, entry);
    ReduceIsConcat("", b, entry);
    EntriesAppend(a, b, entry);
    ConcatAppend(Entries(a, entry), Entries(b, entry));
  }

  /**
   * Node `i` contributes exactly its own entry, after the entries of the
   * nodes before it and before those of the nodes after it; nothing is
   * dropped and nothing is capped.
   */
  lemma ListingOnePerNode<T>(nodes: seq<T>, entry: T -> string, i: nat)
    requires i < |nodes|
    ensures ListingText(nodes, entry)
         == ListingText(nodes[..i], entry) + entry(nodes[i]) + ListingText(nodes[i + 1..], entry)
  {
    assert nodes == nodes[..i] + [nodes[i]] + nodes[i + 1..];
    ListingAppend(nodes[..i] + [nodes[i]], nodes[i + 1..], entry);
    ListingAppend(nodes[..i], [nodes[i]], entry);
    var one := [nodes[i]];
    assert one[1..] == [];
    assert Reduce("", one, entry) == Reduce("" + entry(nodes[i]), [], entry);
  }

  /** A listing under its heading: the heading, a blank line, then one entry per node in node order. */
  lemma ListingUnderHeading<T>(heading: string, nodes: seq<T>, entry: T -> string)
    ensures Join([heading, ListingText(nodes, entry)], "\n\n") == heading + "\n\n" + Concat(Entries(nodes, entry))
  {
    ReduceIsConcat("", nodes, entry);
    JoinTwo(heading, ListingText(nodes, entry), "\n\n");
  }

  /** Node `i`'s entry sits between the entries of the nodes before it and those after it. */
  lemma EntriesSplit<T>(nodes: seq<T>, entry: T -> string, i: nat)
    requires i < |nodes|
    ensures Concat(Entries(nodes, entry))
         == Concat(Entries(nodes[..i], entry)) + entry(nodes[i]) + Concat(Entries(nodes[i + 1..], entry))
  {
    var x := entry(nodes[i]);
    var before, after := Entries(nodes[..i], entry), Entries(nodes[i + 1..], entry);
    SplitAround(nodes, i);
    EntriesAppend(nodes[..i], [nodes[i]] + nodes[i + 1..], entry);
    EntriesCons(nodes[i], nodes[i + 1..], entry);
    ConcatAppend(before, [x] + after);
    ConcatCons(x, after);
    AppendRegroup(Concat(Entries(nodes, entry)), Concat(before), x, Concat(after));
  }

  lemma SplitAround<T>(nodes: seq<T>, i: nat)
    requires i < |nodes|
    ensures nodes == nodes[..i] + ([nodes[i]] + nodes[i + 1..])
  {
  }

  lemma EntriesCons<T>(y: T, ys: seq<T>, entry: T -> string)
    ensures Entries([y] + ys, entry) == [entry(y)] + Entries(ys, entry)
  {
    assert ([y] + ys)[1..] == ys;
  }

  lemma ConcatCons(x: string, xs: seq<string>)
    ensures Concat([x] + xs) == x + Concat(xs)
  {
    assert ([x] + xs)[1..] == xs;
  }

  /** String regrouping, kept apart so that the solver sees only strings. */
  lemma AppendRegroup(s: string, a: string, e: string, b: string)
    requires s == a + (e + b)
    ensures s == a + e + b
  {
  }

  /** The same, for a listing that follows some fixed text such as its heading. */
  lemma HeadedEntriesSplit<T>(s: string, head: string, nodes: seq<T>, entry: T -> string, i: nat)
    requires s == head + Concat(Entries(nodes, entry))
    requires i < |nodes|
    ensures s == head + Concat(Entries(nodes[..i], entry)) + entry(nodes[i]) + Concat(Entries(nodes[i + 1..], entry))
  {
    EntriesSplit(nodes, entry, i);
    PrefixRegroup(s, head, Concat(Entries(nodes, entry)),
                  Concat(Entries(nodes[..i], entry)), entry(nodes[i]), Concat(Entries(nodes[i + 1..], entry)));
  }

  lemma PrefixRegroup(s: string, head: string, c: string, a: string, e: string, b: string)
    requires s == head + c && c == a + e + b
    ensures s == head + a + e + b
  {
    assert head + (a + e + b) == head + a + e + b;
  }
}
