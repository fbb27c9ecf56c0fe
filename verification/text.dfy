/**
 * The string operations the report generators use: JavaScript's
 * `substr(0, n)`, `replace` with a string pattern (first occurrence only),
 * and concatenation of ordered fragments.
 */
module Text {
  import opened Wrappers

  /** `s.substr(0, n)`: the first `n` characters, or all of `s` when it is shorter. */
  function Prefix(s: string, n: nat): (r: string)
    ensures |r| == if |s| <= n then |s| else n
    ensures r <= s
  {
    if |s| <= n then s else s[..n]
  }

  lemma PrefixKeepsShort(s: string, n: nat)
    requires |s| <= n
    ensures Prefix(s, n) == s
  {
  }

  /** Position of the first occurrence of `c` in `s`, as `indexOf` finds it. */
  function IndexOf(s: string, c: char): (r: Option<nat>)
    ensures r.None? <==> c !in s
    ensures r.Some? ==> r.value < |s| && s[r.value] == c && c !in s[..r.value]
    decreases |s|
  {
    if |s| == 0 then None
    else if s[0] == c then Some(0)
    else
      match IndexOf(s[1..], c)
      case None => None
      case Some(i) =>
        assert s[..i + 1] == [s[0]] + s[1..][..i];
        Some(i + 1)
  }

  /**
   * `s.replace(c, rep)` with a one-character string pattern: only the first
   * occurrence of `c` is replaced, and `s` is returned unchanged when `c`
   * does not occur. The replacement is taken literally (`rep` holds no `$`
   * substitution patterns in this program).
   */
  function ReplaceFirst(s: string, c: char, rep: string): (r: string)
    ensures c !in s ==> r == s
    ensures c in s ==> exists i :: 0 <= i < |s| && s[i] == c && c !in s[..i] && r == s[..i] + rep + s[i + 1..]
    ensures |r| == if c in s then |s| + |rep| - 1 else |s|
  {
    match IndexOf(s, c)
    case None => s
    case Some(i) => s[..i] + rep + s[i + 1..]
  }

  /** The escape the active pull-request listing applies: `replace('#', '\\#')`. */
  function EscapeFirstHash(s: string): string {
    ReplaceFirst(s, '#', "\\#")
  }

  /** Escaping inserts exactly one backslash when there is a `#`, and changes nothing otherwise. */
  lemma EscapeAddsOneBackslash(s: string)
    ensures '#' in s ==> multiset(EscapeFirstHash(s)) == multiset(s) + multiset{'\\'}
    ensures '#' !in s ==> EscapeFirstHash(s) == s
  {
    match IndexOf(s, '#')
    case None =>
    case Some(i) =>
      assert EscapeFirstHash(s) == s[..i] + "\\#" + s[i + 1..];
      assert s == s[..i] + [s[i]] + s[i + 1..];
  }

  /** Removes the character just before the first `#` when it is a backslash. */
  function UnescapeFirstHash(t: string): string {
    match IndexOf(t, '#')
    case Some(j) =>
      if j > 0 && t[j - 1] == '\\' then t[..j - 1] + t[j..] else t
    case None => t
  }

  /** Escaping loses nothing: undoing the first escape gives back the original text. */
  lemma UnescapeEscape(s: string)
    ensures UnescapeFirstHash(EscapeFirstHash(s)) == s
  {
    match IndexOf(s, '#')
    case None =>
    case Some(i) =>
      EscapeAt(s, i);
      EscapedShape(s, i);
      UnescapeAt(s[..i] + "\\#" + s[i + 1..], i + 1);
  }

  lemma EscapeAt(s: string, i: nat)
    requires IndexOf(s, '#') == Some(i)
    ensures EscapeFirstHash(s) == s[..i] + "\\#" + s[i + 1..]
  {
  }

  /** Sequence facts about the escaped text, kept apart from the search. */
  lemma EscapedShape(s: string, i: nat)
    requires i < |s| && s[i] == '#'
    ensures var r := s[..i] + "\\#" + s[i + 1..];
            && i + 1 < |r| && r[i] == '\\' && r[i + 1] == '#'
            && r[..i] == s[..i]
            && r[..i] + r[i + 1..] == s
  {
    var r := s[..i] + "\\#" + s[i + 1..];
    assert r[..i] == s[..i];
    assert r[i + 1..] == s[i..];
    assert s == s[..i] + s[i..];
  }

  /** A backslash right before the first `#` is what unescaping removes. */
  lemma UnescapeAt(t: string, j: nat)
    requires 0 < j < |t| && t[j] == '#' && '#' !in t[..j - 1] && t[j - 1] == '\\'
    ensures UnescapeFirstHash(t) == t[..j - 1] + t[j..]
  {
    assert t[..j] == t[..j - 1] + [t[j - 1]];
    IndexOfFirst(t, '#', j);
  }

  /** An occurrence with no earlier occurrence is the one `IndexOf` finds. */
  lemma IndexOfFirst(s: string, c: char, k: nat)
    requires k < |s| && s[k] == c && c !in s[..k]
    ensures IndexOf(s, c) == Some(k)
  {
  }

  /** Ordered concatenation of fragments. */
  function Concat(parts: seq<string>): string
    decreases |parts|
  {
    if |parts| == 0 then "" else parts[0] + Concat(parts[1..])
  }

  lemma {:induction false} ConcatAppend(a: seq<string>, b: seq<string>)
    ensures Concat(a + b) == Concat(a) + Concat(b)
    decreases |a|
  {
    if |a| == 0 {
      assert a + b == b;
    } else {
      assert (a + b)[1..] == a[1..] + b;
      ConcatAppend(a[1..], b);
    }
  }

  /** Fragments separated by `sep`, as a multi-line template places them. */
  function Join(parts: seq<string>, sep: string): string
    decreases |parts|
  {
    if |parts| == 0 then ""
    else if |parts| == 1 then parts[0]
    else parts[0] + sep + Join(parts[1..], sep)
  }

  lemma JoinTwo(a: string, b: string, sep: string)
    ensures Join([a, b], sep) == a + sep + b
  {
    assert [a, b][1..] == [b];
  }

  lemma JoinFour(a: string, b: string, c: string, d: string, sep: string)
    ensures Join([a, b, c, d], sep) == a + sep + b + sep + c + sep + d
  {
    assert Join([d], sep) == d;
    assert [c, d][1..] == [d];
    assert Join([c, d], sep) == c + sep + d;
    assert [b, c, d][1..] == [c, d];
    assert Join([b, c, d], sep) == b + sep + (c + sep + d);
    assert [a, b, c, d][1..] == [b, c, d];
  }

  /** A bulleted markdown list: one `- ` line per item. */
  function Bullets(items: seq<string>): string
    decreases |items|
  {
    if |items| == 0 then ""
    else if |items| == 1 then "- " + items[0]
    else "- " + items[0] + "\n" + Bullets(items[1..])
  }

  lemma BulletsTwo(x: string, y: string)
    ensures Bullets([x, y]) == "- " + x + "\n- " + y
  {
    assert [x, y][1..] == [y];
  }

  lemma BulletsFour(w: string, x: string, y: string, z: string)
    ensures Bullets([w, x, y, z]) == "- " + w + "\n- " + x + "\n- " + y + "\n- " + z
  {
    assert [w, x, y, z][1..] == [x, y, z];
    assert [x, y, z][1..] == [y, z];
    BulletsTwo(y, z);
  }

  /** `t` is four blocks joined by blank lines: each block at its offset, in order, the last ending `t`. */
  predicate BlocksShape(t: string, a: string, b: string, c: string, d: string) {
    var bStart := |a| + 2;
    var cStart := bStart + |b| + 2;
    && t == a + "\n\n" + b + "\n\n" + c + "\n\n" + d
    && t[..|a|] == a
    && t[bStart..bStart + |b|] == b
    && t[cStart..cStart + |c|] == c
    && cStart + |c| + 2 == |t| - |d|
    && t[|t| - |d|..] == d
  }

  lemma FourBlocks(a: string, b: string, c: string, d: string)
    ensures BlocksShape(Join([a, b, c, d], "\n\n"), a, b, c, d)
  {
    JoinFour(a, b, c, d, "\n\n");
    var t := a + "\n\n" + b + "\n\n" + c + "\n\n" + d;
    assert t == a + ("\n\n" + (b + ("\n\n" + (c + ("\n\n" + d)))));
  }

  /**
   * `r` is a heading, two bullets and two listings joined by blank lines:
   * the bullets spelled out, each listing at its offset, the second ending `r`.
   */
  predicate TwoBulletShape(r: string, heading: string, x: string, y: string, c: string, d: string) {
    var bullets := Bullets([x, y]);
    var head := heading + "\n\n" + bullets + "\n\n";
    && bullets == "- " + x + "\n- " + y
    && r == head + c + "\n\n" + d
    && |head| + |c| < |r| - |d|
    && r[|head|..|head| + |c|] == c
    && r[|r| - |d|..] == d
  }

  lemma TwoBulletSection(r: string, heading: string, x: string, y: string, c: string, d: string)
    requires r == Join([heading, Bullets([x, y]), c, d], "\n\n")
    ensures TwoBulletShape(r, heading, x, y, c, d)
  {
    BulletsTwo(x, y);
    FourBlocks(heading, Bullets([x, y]), c, d);
  }

  /** A heading, four bullets and two listings joined by blank lines, block by block. */
  lemma BulletSection(r: string, heading: string, w: string, x: string, y: string, z: string, c: string, d: string)
    requires r == Join([heading, Bullets([w, x, y, z]), c, d], "\n\n")
    ensures Bullets([w, x, y, z]) == "- " + w + "\n- " + x + "\n- " + y + "\n- " + z
    ensures BlocksShape(r, heading, Bullets([w, x, y, z]), c, d)
  {
    BulletsFour(w, x, y, z);
    FourBlocks(heading, Bullets([w, x, y, z]), c, d);
  }

  /** `s` opens with `pre` and closes with `post`, which do not overlap. */
  predicate Framed(s: string, pre: string, post: string) {
    && |pre| + |post| <= |s|
    && s[..|pre|] == pre
    && s[|s| - |post|..] == post
  }

  /** What a framed text holds between its opening and closing words. */
  function Inner(s: string, pre: string, post: string): string
    requires Framed(s, pre, post)
  {
    s[|pre|..|s| - |post|]
  }

  /** Fixed words around a value: reading between them gives the value back. */
  lemma FramedInner(pre: string, mid: string, post: string)
    ensures Framed(pre + mid + post, pre, post)
    ensures Inner(pre + mid + post, pre, post) == mid
  {
    var s := pre + mid + post;
    assert s[..|pre|] == pre;
    assert s[|s| - |post|..] == post;
    assert s[|pre|..|s| - |post|] == mid;
  }
}
