/**
 The route classifier of the rate limiter: it turns a request path into the
 canonical string whose hash is the route key.

 The path is scanned from one '/' to the next. Each step writes "|" and then
 the extracted item when the item is all letters or when the previous item
 was `channels`, `guilds` or `webhooks`. The item is `substr(last + 1, next - 1)`:
 its second argument is a LENGTH, so every item after the first runs past the
 next '/'. The consequences are proved below: the first and last items are
 whole segments, every item in between contains a '/', and of those middle
 items only the second one can be written, and only after a collection name.

 `std::string::find` and `std::string::substr` are modelled with `size_t`
 positions: `NPos` is `std::string::npos` and `last + 1` wraps to 0 when `last`
 is `NPos`.
 */
module Routes {

  /** `std::string::npos`, the largest `size_t`. */
  const NPos: nat := 0xFFFF_FFFF_FFFF_FFFF

  /** The path of the bucket that `do_some_work` never picks calls from. */
  const GatewayPath: string := "/gateway/bot"

  /** `size_t` addition of two `size_t` values, which wraps modulo 2^64. */
  function SizeAdd(a: nat, b: nat): nat
    requires a <= NPos && b <= NPos
  {
    if a + b <= NPos then a + b else a + b - (NPos + 1)
  }

  /** `s.find(c, from)`: the first position at or after `from` holding `c`, or `NPos`. */
  function Find(s: string, c: char, from: nat): (r: nat)
    requires |s| < NPos
    ensures r == NPos || from <= r < |s|
    decreases |s| - from
  {
    if from >= |s| then NPos
    else if s[from] == c then from
    else Find(s, c, from + 1)
  }

  /** `s.substr(pos, len)`: the characters from `pos` on, at most `len` of them. */
  function Substr(s: string, pos: nat, len: nat): (r: string)
    requires pos <= |s|
    ensures |r| == if len < |s| - pos then len else |s| - pos
  {
    if len < |s| - pos then s[pos .. pos + len] else s[pos..]
  }

  /** `std::isalpha` in the "C" locale: the ASCII letters. */
  predicate IsAlpha(c: char)
  {
    'a' <= c <= 'z' || 'A' <= c <= 'Z'
  }

  /** `std::all_of(item, isalpha)`; true of the empty item. */
  predicate AllAlpha(item: string)
  {
    forall i :: 0 <= i < |item| ==> IsAlpha(item[i])
  }

  /** The collections whose following identifier is significant for rate limits. */
  predicate IsCollection(item: string)
  {
    item == "channels" || item == "guilds" || item == "webhooks"
  }

  /** The test of the loop: the item is all letters or the previous item names a collection. */
  predicate Keep(lastItem: string, item: string)
  {
    AllAlpha(item) || IsCollection(lastItem)
  }

  /** What the loop writes after the "|" of an item, given the item before it. */
  function Piece(lastItem: string, item: string): string
  {
    if Keep(lastItem, item) then item else ""
  }

  /** The item before item `j`; the loop starts from the empty string. */
  function Prev(items: seq<string>, j: nat): string
    requires j <= |items|
  {
    if j == 0 then "" else items[j - 1]
  }

  /** The text written for the first `n` items: "|" followed by its piece, for each item. */
  function Render(items: seq<string>, n: nat): string
    requires n <= |items|
  {
    if n == 0 then "" else Render(items, n - 1) + "|" + Piece(Prev(items, n - 1), items[n - 1])
  }

  /** The text the loop ends with when it is at item `j`, with `lastItem` before it and `out` written so far. */
  function RenderFrom(items: seq<string>, j: nat, lastItem: string, out: string): string
    requires j <= |items|
    decreases |items| - j
  {
    if j == |items| then out
    else RenderFrom(items, j + 1, items[j], out + "|" + Piece(lastItem, items[j]))
  }

  /** Continuing from the first `j` items written gives the text of all the items. */
  lemma {:induction false} RenderFromAll(items: seq<string>, j: nat)
    requires j <= |items|
    ensures RenderFrom(items, j, Prev(items, j), Render(items, j)) == Render(items, |items|)
    decreases |items| - j
  {
    if j < |items| {
      RenderFromAll(items, j + 1);
      RenderStep(items, j);
    }
  }

  /** Rendering one more item appends its bar and its piece. */
  lemma RenderStep(items: seq<string>, n: nat)
    requires n < |items|
    ensures Prev(items, n + 1) == items[n]
    ensures Render(items, n + 1) == Render(items, n) + "|" + Piece(Prev(items, n), items[n])
  {
  }

  /** Positions of '/' in `s` at or after `from`, in increasing order. */
  ghost function SlashesFrom(s: string, from: nat): (p: seq<nat>)
    ensures forall k :: 0 <= k < |p| ==> from <= p[k] < |s|
    decreases |s| - from
  {
    if from >= |s| then []
    else if s[from] == '/' then [from] + SlashesFrom(s, from + 1)
    else SlashesFrom(s, from + 1)
  }

  /** Positions of every '/' in `s`, in increasing order; the loop runs once per position. */
  ghost function Slashes(s: string): seq<nat>
  {
    SlashesFrom(s, 0)
  }

  /** The position of the `k`-th '/', or `NPos` once they are used up. */
  ghost function SlashOrEnd(s: string, k: nat): nat
  {
    if k < |Slashes(s)| then Slashes(s)[k] else NPos
  }

  /** The item read at the `j`-th '/': `substr(last + 1, next - 1)`, `next` being the following '/' or `NPos`. */
  ghost function Item(s: string, j: nat): string
    requires j < |Slashes(s)|
  {
    Substr(s, Slashes(s)[j] + 1, SlashOrEnd(s, j + 1) - 1)
  }

  /** The items of the path, one per '/'. */
  ghost function Items(s: string): (items: seq<string>)
    ensures |items| == |Slashes(s)|
    ensures forall j :: 0 <= j < |items| ==> items[j] == Item(s, j)
  {
    seq(|Slashes(s)|, j requires 0 <= j < |Slashes(s)| => Item(s, j))
  }

  /** The canonical string of a path; its hash is the route key. */
  ghost function Canonical(s: string): string
  {
    Render(Items(s), |Items(s)|)
  }

  /** Where a scan position may stand: past the end (`NPos`) or on a character of `s`. */
  predicate ScanPositions(s: string, last: nat, next: nat)
  {
    last == NPos || (last < |s| && (next == NPos || last < next < |s|))
  }

  /**
   The text the loop of `getLimitedRoute` ends with, when `last` and `next` are
   its current slash positions, `lastItem` the item before and `out` the text
   written so far.
   */
  function Scan(s: string, last: nat, next: nat, lastItem: string, out: string): string
    requires |s| < NPos && ScanPositions(s, last, next)
    decreases if last == NPos then 0 else |s| + 1 - last
  {
    if last == NPos then out
    else
      var item := Substr(s, last + 1, next - 1);
      Scan(s, next, Find(s, '/', SizeAdd(next, 1)), item, out + "|" + Piece(lastItem, item))
  }

  /** From the `j`-th slash on, the scan writes what rendering the remaining items writes. */
  lemma {:induction false} ScanItems(s: string, j: nat, next: nat, lastItem: string, out: string)
    requires |s| < NPos && j <= |Slashes(s)|
    requires j < |Slashes(s)| ==> next == SlashOrEnd(s, j + 1)
    requires ScanPositions(s, SlashOrEnd(s, j), next)
    ensures Scan(s, SlashOrEnd(s, j), next, lastItem, out) == RenderFrom(Items(s), j, lastItem, out)
    decreases |Slashes(s)| - j
  {
    if j < |Slashes(s)| {
      var item := Items(s)[j];
      var out' := out + "|" + Piece(lastItem, item);
      var next' := Find(s, '/', SizeAdd(next, 1));
      ScanItemStep(s, j, next, lastItem, out);
      if j + 1 < |Slashes(s)| {
        FindNext(s, j + 1);
      }
      ScanItems(s, j + 1, next', item, out');
    }
  }

  /** The round of the scan at the `j`-th slash writes the `j`-th item. */
  lemma ScanItemStep(s: string, j: nat, next: nat, lastItem: string, out: string)
    requires |s| < NPos && j < |Slashes(s)| && next == SlashOrEnd(s, j + 1)
    requires ScanPositions(s, SlashOrEnd(s, j), next)
    ensures ScanPositions(s, next, Find(s, '/', SizeAdd(next, 1)))
    ensures var item := Items(s)[j];
      Scan(s, SlashOrEnd(s, j), next, lastItem, out)
      == Scan(s, next, Find(s, '/', SizeAdd(next, 1)), item, out + "|" + Piece(lastItem, item))
  {
    ItemAt(s, j);
    ScanStep(s, SlashOrEnd(s, j), next, lastItem, out, Items(s)[j]);
  }

  /** One round of the scan: extract the item, write it, move on to the next slash. */
  lemma ScanStep(s: string, last: nat, next: nat, lastItem: string, out: string, item: string)
    requires |s| < NPos && ScanPositions(s, last, next) && last != NPos
    requires item == Substr(s, last + 1, next - 1)
    ensures ScanPositions(s, next, Find(s, '/', SizeAdd(next, 1)))
    ensures Scan(s, last, next, lastItem, out)
         == Scan(s, next, Find(s, '/', SizeAdd(next, 1)), item, out + "|" + Piece(lastItem, item))
  {
  }

  /** The scan started at the first slash writes the canonical string. */
  lemma ScanCanonical(s: string)
    requires |s| < NPos
    ensures var last := Find(s, '/', 0);
      var next := Find(s, '/', SizeAdd(last, 1));
      && ScanPositions(s, last, next)
      && Scan(s, last, next, "", "") == Canonical(s)
  {
    var last := Find(s, '/', 0);
    var next := Find(s, '/', SizeAdd(last, 1));
    FindSlash(s, 0);
    assert last == SlashOrEnd(s, 0);
    if Slashes(s) != [] {
      FindNext(s, 0);
    }
    ScanItems(s, 0, next, "", "");
    var items := Items(s);
    RenderFromAll(items, 0);
    assert Render(items, 0) == "" && Prev(items, 0) == "";
  }

  /** `getLimitedRoute` without the final hash. */
  method LimitedRoute(route: string) returns (key: string)
    requires |route| < NPos
    ensures key == Canonical(route)
  {
    ScanCanonical(route);
    var out := "";
    var last := Find(route, '/', 0);
    var next := Find(route, '/', SizeAdd(last, 1));
    var lastItem := "";
    ghost var target := Scan(route, last, next, lastItem, out);
    while last != NPos
      invariant ScanPositions(route, last, next)
      invariant Scan(route, last, next, lastItem, out) == target
      decreases if last == NPos then 0 else |route| + 1 - last
    {
      var item := Substr(route, last + 1, next - 1);
      out := AppendItem(out, lastItem, item);
      lastItem := item;
      last := next;
      next := Find(route, '/', SizeAdd(last, 1));
    }
    key := out;
  }

  /** The item the loop extracts between two consecutive slash positions is the `j`-th item. */
  lemma ItemAt(s: string, j: nat)
    requires j < |Slashes(s)|
    ensures SlashOrEnd(s, j) == Slashes(s)[j]
    ensures Substr(s, SlashOrEnd(s, j) + 1, SlashOrEnd(s, j + 1) - 1) == Items(s)[j]
  {
  }

  /** Writes the "|" of an item and then the item itself when the test keeps it. */
  method AppendItem(out: string, lastItem: string, item: string) returns (out': string)
    ensures out' == out + "|" + Piece(lastItem, item)
  {
    out' := out + "|";
    if Keep(lastItem, item) {
      out' := out' + item;
    }
  }

  /** Searching on from the `j`-th slash finds the next one, or `NPos` after the last. */
  lemma FindNext(s: string, j: nat)
    requires |s| < NPos && j < |Slashes(s)|
    ensures Find(s, '/', SizeAdd(Slashes(s)[j], 1)) == SlashOrEnd(s, j + 1)
  {
    assert SizeAdd(Slashes(s)[j], 1) == Slashes(s)[j] + 1;
    SlashesSuffix(s, j);
    FindSlash(s, Slashes(s)[j] + 1);
  }

  /** The slash positions after the `j`-th are the rest of the list. */
  lemma {:induction false} SlashesSuffix(s: string, j: nat)
    requires j < |Slashes(s)|
    ensures SlashesFrom(s, Slashes(s)[j] + 1) == Slashes(s)[j + 1..]
  {
    var p := Slashes(s);
    if j == 0 {
      SlashesAfter(s, 0);
    } else {
      SlashesSuffix(s, j - 1);
      var rest := SlashesFrom(s, p[j - 1] + 1);
      assert rest == p[j..] && rest[0] == p[j];
      SlashesAfter(s, p[j - 1] + 1);
      assert rest[1..] == p[j + 1..];
    }
  }

  /** `find('/', from)` returns the first of the slash positions at or after `from`. */
  lemma {:induction false} FindSlash(s: string, from: nat)
    requires |s| < NPos
    ensures Find(s, '/', from) == if SlashesFrom(s, from) == [] then NPos else SlashesFrom(s, from)[0]
    decreases |s| - from
  {
    if from < |s| && s[from] != '/' {
      FindSlash(s, from + 1);
    }
  }

  /** The slash positions after the first one at or after `from` are the rest of the list. */
  lemma {:induction false} SlashesAfter(s: string, from: nat)
    requires SlashesFrom(s, from) != []
    ensures SlashesFrom(s, SlashesFrom(s, from)[0] + 1) == SlashesFrom(s, from)[1..]
    decreases |s| - from
  {
    if s[from] != '/' {
      SlashesAfter(s, from + 1);
    }
  }

  /** The slash positions are strictly increasing. */
  lemma {:induction false} SlashesIncreasing(s: string, from: nat, k: nat, l: nat)
    requires k < l < |SlashesFrom(s, from)|
    ensures SlashesFrom(s, from)[k] < SlashesFrom(s, from)[l]
    decreases |s| - from
  {
    if s[from] != '/' {
      SlashesIncreasing(s, from + 1, k, l);
    } else if k > 0 {
      SlashesIncreasing(s, from + 1, k - 1, l - 1);
    } else {
      assert SlashesFrom(s, from)[l] == SlashesFrom(s, from + 1)[l - 1];
    }
  }

  /** Every slash position holds a '/'. */
  lemma {:induction false} SlashAt(s: string, from: nat, k: nat)
    requires k < |SlashesFrom(s, from)|
    ensures s[SlashesFrom(s, from)[k]] == '/'
    decreases |s| - from
  {
    if s[from] != '/' {
      SlashAt(s, from + 1, k);
    } else if k > 0 {
      SlashAt(s, from + 1, k - 1);
    }
  }

  /** A stretch without '/' contributes no slash positions. */
  lemma {:induction false} SlashesSkip(s: string, from: nat, to: nat)
    requires from <= to <= |s|
    requires forall i :: from <= i < to ==> s[i] != '/'
    ensures SlashesFrom(s, from) == SlashesFrom(s, to)
    decreases |s| - from
  {
    if from < to {
      SlashesSkip(s, from + 1, to);
    }
  }

  /** Number of occurrences of `c` in `s`. */
  function Occurrences(s: string, c: char): nat
  {
    if s == [] then 0 else (if s[0] == c then 1 else 0) + Occurrences(s[1..], c)
  }

  /** There is one slash position, hence one item and one loop iteration, per '/' of the path. */
  lemma {:induction false} SlashCount(s: string, from: nat)
    requires from <= |s|
    ensures |SlashesFrom(s, from)| == Occurrences(s[from..], '/')
    decreases |s| - from
  {
    if from < |s| {
      SlashCount(s, from + 1);
      assert s[from..][1..] == s[from + 1..];
    }
  }

  lemma {:induction false} OccurrencesAppend(a: string, b: string, c: char)
    ensures Occurrences(a + b, c) == Occurrences(a, c) + Occurrences(b, c)
  {
    if a == [] {
      assert a + b == b;
    } else {
      OccurrencesAppend(a[1..], b, c);
      assert (a + b)[0] == a[0];
      assert (a + b)[1..] == a[1..] + b;
    }
  }

  lemma {:induction false} OccurrencesNone(s: string, c: char)
    requires forall i :: 0 <= i < |s| ==> s[i] != c
    ensures Occurrences(s, c) == 0
  {
    if s != [] {
      OccurrencesNone(s[1..], c);
    }
  }

  /** The text for `n` items holds exactly `n` bars when no item contains "|" itself. */
  lemma {:induction false} RenderBars(items: seq<string>, n: nat)
    requires n <= |items|
    requires forall j, i :: 0 <= j < |items| && 0 <= i < |items[j]| ==> items[j][i] != '|'
    ensures Occurrences(Render(items, n), '|') == n
  {
    if n > 0 {
      RenderBars(items, n - 1);
      var piece := Piece(Prev(items, n - 1), items[n - 1]);
      OccurrencesNone(piece, '|');
      OccurrencesAppend(Render(items, n - 1), "|", '|');
      OccurrencesAppend(Render(items, n - 1) + "|", piece, '|');
    }
  }

  /** Every item is a piece of the path, starting just after its '/'. */
  lemma ItemFromPath(s: string, j: nat, i: nat)
    requires j < |Slashes(s)| && i < |Item(s, j)|
    ensures Slashes(s)[j] + 1 + i < |s|
    ensures Item(s, j)[i] == s[Slashes(s)[j] + 1 + i]
  {
  }

  /** For a path without "|", the canonical string holds one "|" per '/' of the path. */
  lemma OneBarPerSlash(s: string)
    requires forall i :: 0 <= i < |s| ==> s[i] != '|'
    ensures Occurrences(Canonical(s), '|') == Occurrences(s, '/')
  {
    var items := Items(s);
    forall j, i | 0 <= j < |items| && 0 <= i < |items[j]|
      ensures items[j][i] != '|'
    {
      ItemFromPath(s, j, i);
    }
    RenderBars(items, |items|);
    SlashCount(s, 0);
    assert s[0..] == s;
  }

  /** The first item of a path that starts with '/' is its whole first segment. */
  lemma FirstItemIsSegment(s: string)
    requires 0 < |s| < NPos && s[0] == '/'
    ensures |Slashes(s)| > 0 && Slashes(s)[0] == 0
    ensures var p := Slashes(s);
      Item(s, 0) == if |p| > 1 then s[1..p[1]] else s[1..]
  {
  }

  /** The last item is everything after the last '/'. */
  lemma LastItemIsTail(s: string)
    requires |s| < NPos && |Slashes(s)| > 0
    ensures var p := Slashes(s);
      Item(s, |p| - 1) == s[p[|p| - 1] + 1..]
  {
  }

  /** An item strictly between the first and the last holds the '/' that ends its segment. */
  lemma MiddleItemHasSlash(s: string, j: nat)
    requires 0 < j < |Slashes(s)| - 1
    ensures '/' in Item(s, j)
    ensures !AllAlpha(Item(s, j)) && !IsCollection(Item(s, j))
  {
    var p := Slashes(s);
    var item := Item(s, j);
    SlashesIncreasing(s, 0, 0, j);
    SlashesIncreasing(s, 0, j, j + 1);
    SlashAt(s, 0, j + 1);
    var k := p[j + 1] - (p[j] + 1);
    ItemFromPath(s, j, k);
    assert item[k] == s[p[j + 1]] == '/';
    assert !IsAlpha(item[k]);
  }

  /**
   Of the items between the first and the last, only the second is ever
   written, and only when the first item is a collection name.
   */
  lemma MiddleItemKept(s: string, j: nat)
    requires 0 < j < |Slashes(s)| - 1
    ensures Keep(Item(s, j - 1), Item(s, j)) <==> j == 1 && IsCollection(Item(s, 0))
  {
    MiddleItemHasSlash(s, j);
    if j > 1 {
      MiddleItemHasSlash(s, j - 1);
    }
  }

  /** The last item, when it is not also the second, is written exactly when it is all letters. */
  lemma LastItemKept(s: string)
    requires |Slashes(s)| > 2
    ensures var n := |Slashes(s)|;
      Keep(Item(s, n - 2), Item(s, n - 1)) <==> AllAlpha(Item(s, n - 1))
  {
    MiddleItemHasSlash(s, |Slashes(s)| - 2);
  }

  /** The items of a two-segment path `/a/b` are `a` and `b`. */
  lemma TwoItems(s: string, a: string, b: string)
    requires s == "/" + a + "/" + b
    requires '/' !in a && '/' !in b
    requires |s| < NPos
    ensures Items(s) == [a, b]
  {
    var i1 := |a| + 1;
    assert s[0] == '/' && s[i1] == '/';
    SlashesSkip(s, 1, i1);
    SlashesSkip(s, i1 + 1, |s|);
    assert Slashes(s) == [0, i1];
    FirstItemIsSegment(s);
    LastItemIsTail(s);
    assert Item(s, 0) == s[1..i1] == a;
    assert Item(s, 1) == s[i1 + 1..] == b;
  }

  /** The canonical string of a two-segment path `/a/b`. */
  lemma TwoSegments(a: string, b: string)
    requires '/' !in a && '/' !in b
    requires |a| + |b| + 2 < NPos
    ensures Canonical("/" + a + "/" + b)
         == "|" + (if AllAlpha(a) then a else "") + "|" + (if AllAlpha(b) || IsCollection(a) then b else "")
  {
    TwoItems("/" + a + "/" + b, a, b);
    assert !IsCollection("");
    assert Render([a, b], 1) == "|" + Piece("", a);
  }

  /** The slash positions of a path `/a/id/b`. */
  lemma ThreeSlashes(s: string, a: string, id: string, b: string)
    requires s == "/" + a + "/" + id + "/" + b
    requires '/' !in a && '/' !in id && '/' !in b
    ensures Slashes(s) == [0, |a| + 1, |a| + |id| + 2]
  {
    var i1 := |a| + 1;
    var i2 := |a| + |id| + 2;
    assert s[0] == '/' && s[i1] == '/' && s[i2] == '/';
    SlashesSkip(s, 1, i1);
    SlashesSkip(s, i1 + 1, i2);
    SlashesSkip(s, i2 + 1, |s|);
  }

  /** The middle item of a path `/a/id/b` runs `min(|a|, |b|)` characters into `b`. */
  lemma MiddleItem(s: string, a: string, id: string, b: string)
    requires s == "/" + a + "/" + id + "/" + b
    requires Slashes(s) == [0, |a| + 1, |a| + |id| + 2]
    ensures var m := if |a| < |b| then |a| else |b|;
      Item(s, 1) == id + "/" + b[..m]
  {
    var m := if |a| < |b| then |a| else |b|;
    var rest := id + "/" + b;
    assert s[|a| + 2..] == rest;
    assert rest[..|id| + 1 + m] == id + "/" + b[..m];
  }

  /** The three items of a path `/a/id/b`. */
  lemma ThreeItems(s: string, a: string, id: string, b: string)
    requires s == "/" + a + "/" + id + "/" + b
    requires '/' !in a && '/' !in id && '/' !in b
    requires |s| < NPos
    ensures var m := if |a| < |b| then |a| else |b|;
      Items(s) == [a, id + "/" + b[..m], b]
  {
    ThreeSlashes(s, a, id, b);
    FirstItemIsSegment(s);
    LastItemIsTail(s);
    MiddleItem(s, a, id, b);
    assert s[1..|a| + 1] == a;
    assert s[|a| + |id| + 3..] == b;
  }

  /** The text of three items. */
  lemma RenderThree(x: string, y: string, z: string)
    ensures Render([x, y, z], 3) == "|" + Piece("", x) + "|" + Piece(x, y) + "|" + Piece(y, z)
  {
    assert Render([x, y, z], 1) == "|" + Piece("", x);
    assert Render([x, y, z], 2) == Render([x, y, z], 1) + "|" + Piece(x, y);
  }

  /**
   The canonical string of a three-segment path `/a/id/b`: the identifier is
   written, with the '/' and the start of `b` that come with it, only after a
   collection name.
   */
  lemma ThreeSegments(a: string, id: string, b: string)
    requires '/' !in a && '/' !in id && '/' !in b
    requires |a| + |id| + |b| + 3 < NPos
    ensures var m := if |a| < |b| then |a| else |b|;
      Canonical("/" + a + "/" + id + "/" + b)
      == "|" + (if AllAlpha(a) then a else "")
       + "|" + (if IsCollection(a) then id + "/" + b[..m] else "")
       + "|" + (if AllAlpha(b) then b else "")
  {
    var s := "/" + a + "/" + id + "/" + b;
    var m := if |a| < |b| then |a| else |b|;
    var middle := id + "/" + b[..m];
    ThreeItems(s, a, id, b);
    assert middle[|id|] == '/';
    assert !AllAlpha(middle) && !IsCollection(middle);
    assert !IsCollection("");
    RenderThree(a, middle, b);
  }

  /** The collection names are all letters. */
  lemma CollectionIsAlpha(a: string)
    requires IsCollection(a)
    ensures AllAlpha(a)
  {
  }

  /** Under a collection name the identifier is written whole, right after "|a|". */
  lemma CollectionIdWritten(a: string, id: string, b: string)
    requires IsCollection(a)
    requires '/' !in id && '/' !in b
    requires |a| + |id| + |b| + 3 < NPos
    ensures var c := Canonical("/" + a + "/" + id + "/" + b);
      var m := if |a| < |b| then |a| else |b|;
      && |c| == |a| + |id| + m + 4 + (if AllAlpha(b) then |b| else 0)
      && forall k :: 0 <= k < |id| ==> c[|a| + 2 + k] == id[k]
  {
    CollectionIsAlpha(a);
    ThreeSegments(a, id, b);
    var m := if |a| < |b| then |a| else |b|;
    ThreeFields(a, id, "/" + b[..m], if AllAlpha(b) then b else "");
  }

  /** Where the fields of a text `|x|y+z|w` sit. */
  lemma ThreeFields(x: string, y: string, z: string, w: string)
    ensures var t := "|" + x + "|" + (y + z) + "|" + w;
      && |t| == |x| + |y| + |z| + |w| + 3
      && forall k :: 0 <= k < |y| ==> t[|x| + 2 + k] == y[k]
  {
  }

  /** Under a collection name, different identifiers give different canonical strings. */
  lemma CollectionIdKept(a: string, id1: string, id2: string, b: string)
    requires IsCollection(a)
    requires '/' !in id1 && '/' !in id2 && '/' !in b
    requires |a| + |id1| + |b| + 3 < NPos && |a| + |id2| + |b| + 3 < NPos
    requires id1 != id2
    ensures Canonical("/" + a + "/" + id1 + "/" + b) != Canonical("/" + a + "/" + id2 + "/" + b)
  {
    CollectionIdWritten(a, id1, b);
    CollectionIdWritten(a, id2, b);
    if |id1| == |id2| {
      var k :| 0 <= k < |id1| && id1[k] != id2[k];
    }
  }

  /** After any other first segment, the identifier does not affect the canonical string. */
  lemma OtherIdElided(a: string, id1: string, id2: string, b: string)
    requires !IsCollection(a)
    requires '/' !in a && '/' !in id1 && '/' !in id2 && '/' !in b
    requires |a| + |id1| + |b| + 3 < NPos && |a| + |id2| + |b| + 3 < NPos
    ensures Canonical("/" + a + "/" + id1 + "/" + b) == Canonical("/" + a + "/" + id2 + "/" + b)
  {
    ThreeSegments(a, id1, b);
    ThreeSegments(a, id2, b);
  }

  lemma ChannelRoutesDiffer()
    ensures Canonical("/channels/123/messages") != Canonical("/channels/456/messages")
  {
    assert "/channels/123/messages" == "/" + "channels" + "/" + "123" + "/" + "messages";
    assert "/channels/456/messages" == "/" + "channels" + "/" + "456" + "/" + "messages";
    CollectionIdKept("channels", "123", "456", "messages");
  }

  lemma UserRoutesAgree()
    ensures Canonical("/users/123/profile") == Canonical("/users/456/profile")
  {
    assert "/users/123/profile" == "/" + "users" + "/" + "123" + "/" + "profile";
    assert "/users/456/profile" == "/" + "users" + "/" + "456" + "/" + "profile";
    OtherIdElided("users", "123", "456", "profile");
  }
}
