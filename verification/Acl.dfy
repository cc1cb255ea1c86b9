/** The auto-approver prefixes: which routes the printed access rule covers. */
module Acl {
  import opened Common
  import opened Text
  import opened Netip
  import opened Tables

  /** The private IPv4 blocks of section 3 of RFC 1918. */
  const PRIVATE: seq<Prefix> := [
    Prefix(V4, 10 * 0x100_0000, 8),
    Prefix(V4, 172 * 0x100_0000 + 16 * 0x1_0000, 12),
    Prefix(V4, 192 * 0x100_0000 + 168 * 0x1_0000, 16)]

  lemma Powers()
    ensures Pow2(16) == 0x1_0000 && Pow2(20) == 0x10_0000 && Pow2(24) == 0x100_0000 && Pow2(32) == 0x1_0000_0000
  {
    assert Pow2(4) == 16;
    PowAdd(4, 4);
    PowAdd(8, 8);
    PowAdd(16, 4);
    PowAdd(16, 8);
    PowAdd(16, 16);
  }

  lemma PrivateGood()
    ensures forall b :: 0 <= b < |PRIVATE| ==> GoodPrefix(PRIVATE[b])
  {
    hide Pow2;
    Powers();
  }

  /** No private block overlaps another. */
  lemma PrivateApart(b: nat, d: nat)
    requires b < |PRIVATE| && d < |PRIVATE|
    ensures GoodPrefix(PRIVATE[b]) && GoodPrefix(PRIVATE[d])
    ensures b != d ==> !PRIVATE[b].Overlaps(PRIVATE[d])
  {
    hide Pow2;
    Powers();
    PrivateGood();
  }

  /** The first private block a prefix overlaps. */
  function FirstBlock(p: Prefix): Option<nat>
    requires GoodPrefix(p)
  {
    PrivateGood();
    if PRIVATE[0].Overlaps(p) then Some(0)
    else if PRIVATE[1].Overlaps(p) then Some(1)
    else if PRIVATE[2].Overlaps(p) then Some(2)
    else None
  }

  ghost predicate Listed(c: Codec, routes: seq<string>, p: Prefix) {
    exists i :: 0 <= i < |routes| && ParseSubnet(c, routes[i]) == Some(p)
  }

  /** A route's first block is this one. */
  ghost predicate BlockHit(c: Codec, routes: seq<string>, b: nat) {
    exists p :: Listed(c, routes, p) && GoodPrefix(p) && FirstBlock(p) == Some(b)
  }

  /** A route that overlaps no block, in canonical text. */
  ghost predicate ExtraHit(c: Codec, routes: seq<string>, x: string) {
    exists p :: Listed(c, routes, p) && GoodPrefix(p) && FirstBlock(p) == None && x == c.format(p)
  }

  /** The blocks and the extra texts gathered from some routes. */
  ghost predicate Gathered(c: Codec, routes: seq<string>, blocks: set<nat>, extra: seq<string>) {
    && (forall b: nat :: b in blocks <==> BlockHit(c, routes, b))
    && (forall x :: x in extra <==> ExtraHit(c, routes, x))
    && Distinct(extra)
  }

  function BlockTexts(c: Codec, blocks: set<nat>, from: nat): seq<string>
    decreases |PRIVATE| - from
  {
    if from >= |PRIVATE| then []
    else (if from in blocks then [c.format(PRIVATE[from])] else []) + BlockTexts(c, blocks, from + 1)
  }

  /** The overlapped blocks in order, then the rest sorted; all blocks when there
      is nothing to go by. */
  function Answer(c: Codec, blocks: set<nat>, extra: seq<string>): seq<string> {
    var listed := BlockTexts(c, blocks, 0) + Sort(extra);
    if listed == [] then BlockTexts(c, {0, 1, 2}, 0) else listed
  }

  lemma ListedMore(c: Codec, routes: seq<string>, n: nat, p: Prefix)
    requires n < |routes|
    ensures Listed(c, routes[..n + 1], p) <==> Listed(c, routes[..n], p) || ParseSubnet(c, routes[n]) == Some(p)
  {
    hide ParseSubnet;
    if Listed(c, routes[..n], p) {
      var i :| 0 <= i < n && ParseSubnet(c, routes[..n][i]) == Some(p);
      assert routes[..n + 1][i] == routes[..n][i];
    }
    if ParseSubnet(c, routes[n]) == Some(p) {
      assert routes[..n + 1][n] == routes[n];
    }
    if Listed(c, routes[..n + 1], p) {
      var i :| 0 <= i < n + 1 && ParseSubnet(c, routes[..n + 1][i]) == Some(p);
      if i < n {
        assert routes[..n][i] == routes[..n + 1][i];
      }
    }
  }

  lemma HitsMore(c: Codec, routes: seq<string>, n: nat)
    requires n < |routes|
    ensures forall b: nat ::
      BlockHit(c, routes[..n + 1], b) <==> BlockHit(c, routes[..n], b) || Hits(ParseSubnet(c, routes[n]), Some(b))
    ensures forall x ::
      ExtraHit(c, routes[..n + 1], x) <==> ExtraHit(c, routes[..n], x) || HitsNone(c, ParseSubnet(c, routes[n]), x)
  {
    hide ParseSubnet, Hits, HitsNone, BlockHit, ExtraHit;
    forall b: nat
      ensures BlockHit(c, routes[..n + 1], b) <==>
        BlockHit(c, routes[..n], b) || Hits(ParseSubnet(c, routes[n]), Some(b))
    {
      BlockHitMore(c, routes, n, b);
    }
    forall x
      ensures ExtraHit(c, routes[..n + 1], x) <==>
        ExtraHit(c, routes[..n], x) || HitsNone(c, ParseSubnet(c, routes[n]), x)
    {
      ExtraHitMore(c, routes, n, x);
    }
  }

  /** A route that parsed, with this first block. */
  predicate Hits(parsed: Option<Prefix>, block: Option<nat>) {
    parsed.Some? && GoodPrefix(parsed.value) && FirstBlock(parsed.value) == block
  }

  /** A route that parsed and overlaps no block, with this text. */
  predicate HitsNone(c: Codec, parsed: Option<Prefix>, x: string) {
    Hits(parsed, None) && x == c.format(parsed.value)
  }

  lemma BlockHitMore(c: Codec, routes: seq<string>, n: nat, b: nat)
    requires n < |routes|
    ensures BlockHit(c, routes[..n + 1], b) <==> BlockHit(c, routes[..n], b) || Hits(ParseSubnet(c, routes[n]), Some(b))
  {
    hide ParseSubnet, FirstBlock, GoodPrefix, Listed;
    if BlockHit(c, routes[..n + 1], b) {
      var p :| Listed(c, routes[..n + 1], p) && GoodPrefix(p) && FirstBlock(p) == Some(b);
      ListedMore(c, routes, n, p);
    }
    if BlockHit(c, routes[..n], b) {
      var p :| Listed(c, routes[..n], p) && GoodPrefix(p) && FirstBlock(p) == Some(b);
      ListedMore(c, routes, n, p);
    }
    if Hits(ParseSubnet(c, routes[n]), Some(b)) {
      ListedMore(c, routes, n, ParseSubnet(c, routes[n]).value);
    }
  }

  lemma ExtraHitMore(c: Codec, routes: seq<string>, n: nat, x: string)
    requires n < |routes|
    ensures ExtraHit(c, routes[..n + 1], x) <==> ExtraHit(c, routes[..n], x) || HitsNone(c, ParseSubnet(c, routes[n]), x)
  {
    hide ParseSubnet, FirstBlock, GoodPrefix, Listed;
    if ExtraHit(c, routes[..n + 1], x) {
      var p :| Listed(c, routes[..n + 1], p) && GoodPrefix(p) && FirstBlock(p) == None && x == c.format(p);
      ListedMore(c, routes, n, p);
    }
    if ExtraHit(c, routes[..n], x) {
      var p :| Listed(c, routes[..n], p) && GoodPrefix(p) && FirstBlock(p) == None && x == c.format(p);
      ListedMore(c, routes, n, p);
    }
    if Hits(ParseSubnet(c, routes[n]), None) {
      ListedMore(c, routes, n, ParseSubnet(c, routes[n]).value);
    }
  }

  /** The private blocks marked, in their own order. */
  method CoveredBlocks(c: Codec, covered: set<nat>) returns (r: seq<string>)
    ensures r == BlockTexts(c, covered, 0)
  {
    hide BlockTexts;
    r := [];
    for b := 0 to |PRIVATE|
      invariant r + BlockTexts(c, covered, b) == BlockTexts(c, covered, 0)
    {
      NextBlockText(c, covered, b);
      if b in covered {
        r := r + [c.format(PRIVATE[b])];
      }
    }
    NoBlockText(c, covered);
  }

  lemma NextBlockText(c: Codec, blocks: set<nat>, b: nat)
    requires b < |PRIVATE|
    ensures BlockTexts(c, blocks, b) == (if b in blocks then [c.format(PRIVATE[b])] else []) + BlockTexts(c, blocks, b + 1)
  {
  }

  lemma NoBlockText(c: Codec, blocks: set<nat>)
    ensures BlockTexts(c, blocks, |PRIVATE|) == []
  {
  }

  /** What the walk over the routes has marked and gathered. */
  function Collected(c: Codec, routes: seq<string>): (set<nat>, seq<string>) {
    if routes == [] then ({}, [])
    else
      var last := |routes| - 1;
      var (blocks, extra) := Collected(c, routes[..last]);
      ParsedGood(c, routes[last]);
      match ParseSubnet(c, routes[last])
      case None => (blocks, extra)
      case Some(p) =>
        match FirstBlock(p)
        case Some(b) => (blocks + {b}, extra)
        case None => (blocks, if c.format(p) in extra then extra else extra + [c.format(p)])
  }

  function Covering(c: Codec, routes: seq<string>): seq<string> {
    Answer(c, Collected(c, routes).0, Collected(c, routes).1)
  }

  /** `coveringPrefixes` */
  method CoveringPrefixes(c: Codec, routes: seq<string>) returns (r: seq<string>)
    ensures r == Covering(c, routes)
  {
    hide ParseSubnet, FirstBlock, Sort, GoodPrefix, BlockTexts;
    var covered: set<nat>, others: seq<string> := {}, [];
    for n := 0 to |routes|
      invariant (covered, others) == Collected(c, routes[..n])
    {
      assert routes[..n + 1][..n] == routes[..n];
      ParsedGood(c, routes[n]);
      var parsed := ParseSubnet(c, routes[n]);
      if parsed.None? {
        continue;
      }
      var first := FindBlock(parsed.value);
      if first.Some? {
        covered := covered + {first.value};
      } else if c.format(parsed.value) !in others {
        others := others + [c.format(parsed.value)];
      }
    }
    assert routes[..|routes|] == routes;
    var listed := CoveredBlocks(c, covered);
    r := listed + Sort(others);
    if |r| == 0 {
      return BlockTexts(c, {0, 1, 2}, 0);
    }
  }

  /** The walk marks exactly the blocks some route overlaps first, and gathers
      exactly the canonical texts of the routes that overlap none. */
  lemma {:induction false} CollectedSpec(c: Codec, routes: seq<string>)
    ensures Gathered(c, routes, Collected(c, routes).0, Collected(c, routes).1)
  {
    hide ParseSubnet, FirstBlock, Gathered, GoodPrefix;
    if routes == [] {
      NothingGathered(c, routes);
      assert routes[..0] == routes;
    } else {
      var last := |routes| - 1;
      CollectedSpec(c, routes[..last]);
      GatheredMore(c, routes, last, Collected(c, routes[..last]).0, Collected(c, routes[..last]).1);
      assert routes[..last + 1] == routes;
    }
  }

  lemma NothingGathered(c: Codec, routes: seq<string>)
    ensures Gathered(c, routes[..0], {}, [])
  {
  }

  /** One more route: nothing, its first block, or its canonical text. */
  lemma GatheredMore(c: Codec, routes: seq<string>, n: nat, blocks: set<nat>, extra: seq<string>)
    requires n < |routes| && Gathered(c, routes[..n], blocks, extra)
    ensures match ParseSubnet(c, routes[n])
      case None => Gathered(c, routes[..n + 1], blocks, extra)
      case Some(p) =>
        && GoodPrefix(p)
        && match FirstBlock(p)
           case Some(b) => Gathered(c, routes[..n + 1], blocks + {b}, extra)
           case None => Gathered(c, routes[..n + 1], blocks, if c.format(p) in extra then extra else extra + [c.format(p)])
  {
    hide ParseSubnet, FirstBlock, BlockHit, ExtraHit, GoodPrefix;
    HitsMore(c, routes, n);
    ParsedGood(c, routes[n]);
  }

  /** The inner loop: the first block that overlaps, then break. */
  method FindBlock(p: Prefix) returns (first: Option<nat>)
    requires GoodPrefix(p)
    ensures first == FirstBlock(p)
  {
    PrivateGood();
    for b := 0 to |PRIVATE|
      invariant forall d :: 0 <= d < b ==> !PRIVATE[d].Overlaps(p)
    {
      if PRIVATE[b].Overlaps(p) {
        return Some(b);
      }
    }
    return None;
  }

  // ----- what the returned prefixes cover

  ghost predicate CoversGood(q: Prefix, p: Prefix) {
    GoodPrefix(q) && GoodPrefix(p) && q.Covers(p)
  }

  /** A prefix wider than a whole private block. */
  ghost predicate SwallowsBlock(p: Prefix) {
    exists b: nat :: b < |PRIVATE| && CoversGood(p, PRIVATE[b]) && p.bits < PRIVATE[b].bits
  }

  /** Some returned text stands for a prefix that contains this one. */
  ghost predicate CoveredBy(c: Codec, r: seq<string>, p: Prefix) {
    exists x :: x in r && CoversGood(PrefixAt(c, x), p)
  }

  /** With a parseable route, the answer is the blocks hit and the extra texts. */
  lemma AnswerMembers(c: Codec, routes: seq<string>, blocks: set<nat>, extra: seq<string>, p: Prefix)
    requires Gathered(c, routes, blocks, extra) && Listed(c, routes, p) && GoodPrefix(p)
    ensures forall x :: x in Answer(c, blocks, extra) <==> x in extra || exists b: nat :: IsBlock(c, blocks, b, x)
  {
    hide Listed, GoodPrefix, FirstBlock, Sort, ParseSubnet;
    BlockTextsMembers(c, blocks, 0);
    SortSpec(extra);
    SameMembers(extra, Sort(extra));
    if FirstBlock(p) == None {
      assert ExtraHit(c, routes, c.format(p));
      assert c.format(p) in Sort(extra);
    } else {
      var b := FirstBlock(p).value;
      FirstBlockSpec(p);
      assert BlockHit(c, routes, b);
      assert IsBlock(c, blocks, b, c.format(PRIVATE[b]));
    }
  }

  ghost predicate IsBlock(c: Codec, blocks: set<nat>, b: nat, x: string) {
    b < |PRIVATE| && b in blocks && x == c.format(PRIVATE[b])
  }

  lemma {:induction false} BlockTextsMembers(c: Codec, blocks: set<nat>, from: nat)
    ensures forall x :: x in BlockTexts(c, blocks, from) <==> exists b: nat :: from <= b && IsBlock(c, blocks, b, x)
    decreases |PRIVATE| - from
  {
    if from < |PRIVATE| {
      BlockTextsMembers(c, blocks, from + 1);
      forall x ensures x in BlockTexts(c, blocks, from) <==> exists b: nat :: from <= b && IsBlock(c, blocks, b, x) {
        if x in BlockTexts(c, blocks, from + 1) {
          var b: nat :| from + 1 <= b && IsBlock(c, blocks, b, x);
          assert from <= b && IsBlock(c, blocks, b, x);
        } else if x in BlockTexts(c, blocks, from) {
          assert IsBlock(c, blocks, from, x);
        }
        if b: nat :| from <= b && IsBlock(c, blocks, b, x) {
          assert b == from || from + 1 <= b;
        }
      }
    }
  }

  lemma FirstBlockSpec(p: Prefix)
    requires GoodPrefix(p)
    ensures forall b :: 0 <= b < |PRIVATE| ==> PRIVATE[b].Valid()
    ensures FirstBlock(p).Some? ==> FirstBlock(p).value < |PRIVATE| && PRIVATE[FirstBlock(p).value].Overlaps(p)
    ensures FirstBlock(p) == None ==> forall b :: 0 <= b < |PRIVATE| ==> !PRIVATE[b].Overlaps(p)
  {
    PrivateGood();
  }

  /** Every parseable route is inside a returned prefix exactly when it is not
      wider than a private block: the code looks for overlap, and for such a
      route lists only the narrower block. */
  lemma CoveredIff(c: Codec, routes: seq<string>, p: Prefix)
    requires Faithful(c) && Listed(c, routes, p) && GoodPrefix(p)
    ensures CoveredBy(c, Covering(c, routes), p) <==> !SwallowsBlock(p)
  {
    hide Faithful, Listed, GoodPrefix, CoversGood, Answer, SwallowsBlock, Gathered, Collected, PrefixAt;
    var (blocks, extra) := Collected(c, routes);
    var r := Answer(c, blocks, extra);
    CollectedSpec(c, routes);
    AnswerMembers(c, routes, blocks, extra, p);
    if !SwallowsBlock(p) {
      var x := Cover(c, routes, blocks, extra, p);
      assert x in r;
    } else if CoveredBy(c, r, p) {
      var x :| x in r && CoversGood(PrefixAt(c, x), p);
      var d := SwallowedBlock(p);
      CoverChain(PrefixAt(c, x), p, d);
      if x in extra {
        ExtraCoversNoBlock(c, routes, blocks, extra, x, d);
      } else {
        var e: nat :| IsBlock(c, blocks, e, x);
        BlockText(c, e);
        BlockSwallowsNothing(e, d);
      }
    }
  }

  lemma SwallowedBlock(p: Prefix) returns (d: nat)
    requires SwallowsBlock(p)
    ensures d < |PRIVATE| && CoversGood(p, PRIVATE[d]) && p.bits < PRIVATE[d].bits
  {
    d :| d < |PRIVATE| && CoversGood(p, PRIVATE[d]) && p.bits < PRIVATE[d].bits;
  }

  lemma BlockText(c: Codec, b: nat)
    requires Faithful(c) && b < |PRIVATE|
    ensures PrefixAt(c, c.format(PRIVATE[b])) == PRIVATE[b]
  {
    hide Pow2, ParseSubnet, Faithful;
    PrivateGood();
    ParseFormat(c, PRIVATE[b]);
  }

  /** The returned text that covers a route not wider than a block. */
  lemma Cover(c: Codec, routes: seq<string>, blocks: set<nat>, extra: seq<string>, p: Prefix) returns (x: string)
    requires Faithful(c) && Gathered(c, routes, blocks, extra) && Listed(c, routes, p) && GoodPrefix(p) && !SwallowsBlock(p)
    ensures (x in extra || exists b: nat :: IsBlock(c, blocks, b, x)) && CoversGood(PrefixAt(c, x), p)
  {
    hide Faithful, Listed, GoodPrefix, FirstBlock, CoversGood, ParseSubnet, SwallowsBlock;
    if FirstBlock(p) == None {
      x := c.format(p);
      assert ExtraHit(c, routes, x);
      ParseFormat(c, p);
      CoversItself(p);
    } else {
      var b := FirstBlock(p).value;
      FirstBlockSpec(p);
      assert BlockHit(c, routes, b);
      x := c.format(PRIVATE[b]);
      assert IsBlock(c, blocks, b, x);
      BlockText(c, b);
      BlockCovers(p, b);
    }
  }

  lemma ExtraCoversNoBlock(c: Codec, routes: seq<string>, blocks: set<nat>, extra: seq<string>, x: string, d: nat)
    requires Faithful(c) && Gathered(c, routes, blocks, extra) && x in extra && d < |PRIVATE|
    ensures !CoversGood(PrefixAt(c, x), PRIVATE[d])
  {
    hide Faithful, Listed, GoodPrefix, FirstBlock, CoversGood, ParseSubnet;
    assert ExtraHit(c, routes, x);
    var q :| Listed(c, routes, q) && GoodPrefix(q) && FirstBlock(q) == None && x == c.format(q);
    ParseFormat(c, q);
    if CoversGood(q, PRIVATE[d]) {
      ExtraSwallowsNothing(q, d);
    }
  }

  lemma CoversItself(p: Prefix)
    requires GoodPrefix(p)
    ensures CoversGood(p, p)
  {
  }

  lemma BlockCovers(p: Prefix, b: nat)
    requires GoodPrefix(p) && b < |PRIVATE| && PRIVATE[b].Valid() && PRIVATE[b].Overlaps(p) && !SwallowsBlock(p)
    ensures CoversGood(PRIVATE[b], p)
  {
    hide Pow2;
    PrivateGood();
    Laminar(PRIVATE[b], p);
    if p.bits >= PRIVATE[b].bits {
      OverlapCovers(PRIVATE[b], p);
    } else {
      OverlapCovers(p, PRIVATE[b]);
    }
  }

  lemma CoverChain(q: Prefix, p: Prefix, d: nat)
    requires d < |PRIVATE| && CoversGood(q, p) && CoversGood(p, PRIVATE[d]) && p.bits < PRIVATE[d].bits
    ensures CoversGood(q, PRIVATE[d]) && q.bits < PRIVATE[d].bits
  {
    hide Pow2;
    CoversBits(q, p);
  }

  lemma ExtraSwallowsNothing(q: Prefix, d: nat)
    requires d < |PRIVATE| && CoversGood(q, PRIVATE[d])
    ensures GoodPrefix(q) && FirstBlock(q) != None
  {
    FirstBlockSpec(q);
    Laminar(PRIVATE[d], q);
  }

  lemma BlockSwallowsNothing(e: nat, d: nat)
    requires e < |PRIVATE| && d < |PRIVATE| && CoversGood(PRIVATE[e], PRIVATE[d])
    ensures e == d
  {
    PrivateApart(e, d);
    Laminar(PRIVATE[e], PRIVATE[d]);
  }

  /** With a parseable route at hand, a private block is returned only if a route
      overlaps it. */
  lemma NoIdleBlock(c: Codec, routes: seq<string>, p: Prefix, b: nat)
    requires Faithful(c) && Listed(c, routes, p) && GoodPrefix(p)
    requires b < |PRIVATE| && c.format(PRIVATE[b]) in Covering(c, routes)
    ensures exists q :: Listed(c, routes, q) && GoodPrefix(q) && PRIVATE[b].Valid() && PRIVATE[b].Overlaps(q)
  {
    hide Faithful, Listed, FirstBlock, Pow2, Answer, ParseSubnet, Gathered, Collected;
    var (blocks, extra) := Collected(c, routes);
    var x := c.format(PRIVATE[b]);
    CollectedSpec(c, routes);
    AnswerMembers(c, routes, blocks, extra, p);
    BlockText(c, b);
    PrivateGood();
    CoversItself(PRIVATE[b]);
    if x in extra {
      ExtraCoversNoBlock(c, routes, blocks, extra, x, b);
    } else {
      var d: nat :| IsBlock(c, blocks, d, x);
      BlockText(c, d);
      HitBlock(c, routes, blocks, extra, d);
    }
  }

  lemma HitBlock(c: Codec, routes: seq<string>, blocks: set<nat>, extra: seq<string>, d: nat)
    requires Gathered(c, routes, blocks, extra) && d in blocks && d < |PRIVATE|
    ensures exists q :: Listed(c, routes, q) && GoodPrefix(q) && PRIVATE[d].Valid() && PRIVATE[d].Overlaps(q)
  {
    hide Listed, FirstBlock, Pow2;
    assert BlockHit(c, routes, d);
    var q :| Listed(c, routes, q) && GoodPrefix(q) && FirstBlock(q) == Some(d);
    FirstBlockSpec(q);
  }

  /** The default route is such a route: nothing that is returned for it covers
      it. */
  lemma DefaultRouteUncovered(c: Codec)
    requires Faithful(c)
    ensures var p := Prefix(V4, 0, 0);
      GoodPrefix(p) && Listed(c, [c.format(p)], p) && !CoveredBy(c, Covering(c, [c.format(p)]), p)
  {
    hide Pow2, Faithful, Covering, ParseSubnet;
    var p := Prefix(V4, 0, 0);
    ParseFormat(c, p);
    assert [c.format(p)][0] == c.format(p);
    PrivateGood();
    OverlapCovers(p, PRIVATE[0]);
    assert CoversGood(p, PRIVATE[0]);
    CoveredIff(c, [c.format(p)], p);
  }

  // ----- the list itself

  const TEN: Prefix := Prefix(V4, 0x0A00_0000, 8)
  const ONE_SEVEN_TWO: Prefix := Prefix(V4, 0xAC10_0000, 12)
  const ONE_NINE_TWO: Prefix := Prefix(V4, 0xC0A8_0000, 16)

  lemma TheBlocks()
    ensures PRIVATE == [TEN, ONE_SEVEN_TWO, ONE_NINE_TWO]
    ensures GoodPrefix(TEN) && GoodPrefix(ONE_SEVEN_TWO) && GoodPrefix(ONE_NINE_TWO)
  {
    hide Pow2;
    PrivateGood();
    assert PRIVATE[0] == TEN && PRIVATE[1] == ONE_SEVEN_TWO && PRIVATE[2] == ONE_NINE_TWO;
  }

  predicate Meets(p: Prefix, q: Prefix) {
    GoodPrefix(p) && GoodPrefix(q) && q.Overlaps(p)
  }

  /** Some route overlaps this block and none of those before it. */
  ghost predicate HitFirst(c: Codec, routes: seq<string>, block: Prefix, before: seq<Prefix>) {
    exists p :: Listed(c, routes, p) && Meets(p, block) && forall q :: q in before ==> !Meets(p, q)
  }

  /** The canonical text of a route that overlaps no private block. */
  ghost predicate Outside(c: Codec, routes: seq<string>, x: string) {
    exists p :: Listed(c, routes, p) && x == c.format(p)
      && !Meets(p, TEN) && !Meets(p, ONE_SEVEN_TWO) && !Meets(p, ONE_NINE_TWO)
  }

  lemma ListedGood(c: Codec, routes: seq<string>, p: Prefix)
    requires Listed(c, routes, p)
    ensures GoodPrefix(p)
  {
    hide ParseSubnet;
    var i :| 0 <= i < |routes| && ParseSubnet(c, routes[i]) == Some(p);
    ParsedGood(c, routes[i]);
  }

  lemma FirstBlockMeets(p: Prefix)
    requires GoodPrefix(p)
    ensures FirstBlock(p) == Some(0) <==> Meets(p, TEN)
    ensures FirstBlock(p) == Some(1) <==> Meets(p, ONE_SEVEN_TWO) && !Meets(p, TEN)
    ensures FirstBlock(p) == Some(2) <==> Meets(p, ONE_NINE_TWO) && !Meets(p, TEN) && !Meets(p, ONE_SEVEN_TWO)
    ensures FirstBlock(p) == None <==> !Meets(p, TEN) && !Meets(p, ONE_SEVEN_TWO) && !Meets(p, ONE_NINE_TWO)
  {
    hide Pow2;
    TheBlocks();
    PrivateGood();
  }

  lemma HitsExact(c: Codec, routes: seq<string>)
    ensures BlockHit(c, routes, 0) <==> HitFirst(c, routes, TEN, [])
    ensures BlockHit(c, routes, 1) <==> HitFirst(c, routes, ONE_SEVEN_TWO, [TEN])
    ensures BlockHit(c, routes, 2) <==> HitFirst(c, routes, ONE_NINE_TWO, [TEN, ONE_SEVEN_TWO])
    ensures forall x :: ExtraHit(c, routes, x) <==> Outside(c, routes, x)
  {
    hide Listed, FirstBlock, Meets;
    forall p | Listed(c, routes, p)
      ensures GoodPrefix(p)
      ensures FirstBlock(p) == Some(0) <==> Meets(p, TEN)
      ensures FirstBlock(p) == Some(1) <==> Meets(p, ONE_SEVEN_TWO) && !Meets(p, TEN)
      ensures FirstBlock(p) == Some(2) <==> Meets(p, ONE_NINE_TWO) && !Meets(p, TEN) && !Meets(p, ONE_SEVEN_TWO)
      ensures FirstBlock(p) == None <==> !Meets(p, TEN) && !Meets(p, ONE_SEVEN_TWO) && !Meets(p, ONE_NINE_TWO)
    {
      ListedGood(c, routes, p);
      FirstBlockMeets(p);
    }
  }

  lemma ThreeTexts(c: Codec, blocks: set<nat>)
    ensures BlockTexts(c, blocks, 0) ==
      (if 0 in blocks then [c.format(TEN)] else []) + (if 1 in blocks then [c.format(ONE_SEVEN_TWO)] else [])
      + (if 2 in blocks then [c.format(ONE_NINE_TWO)] else [])
  {
    hide Pow2;
    TheBlocks();
    assert BlockTexts(c, blocks, 3) == [];
    assert BlockTexts(c, blocks, 2) == if 2 in blocks then [c.format(ONE_NINE_TWO)] else [];
    assert BlockTexts(c, blocks, 1) ==
      (if 1 in blocks then [c.format(ONE_SEVEN_TWO)] else []) + if 2 in blocks then [c.format(ONE_NINE_TWO)] else [];
  }

  /** With nothing to go by the answer is the three private blocks. */
  lemma NothingListed(c: Codec, routes: seq<string>)
    requires forall p :: !Listed(c, routes, p)
    ensures Covering(c, routes) == [c.format(TEN), c.format(ONE_SEVEN_TWO), c.format(ONE_NINE_TWO)]
  {
    hide Listed, FirstBlock, Collected, BlockTexts, GoodPrefix;
    CollectedSpec(c, routes);
    var (blocks, extra) := Collected(c, routes);
    NoneGathered(c, routes, blocks, extra);
    ThreeTexts(c, blocks);
    ThreeTexts(c, {0, 1, 2});
  }

  lemma NoneGathered(c: Codec, routes: seq<string>, blocks: set<nat>, extra: seq<string>)
    requires Gathered(c, routes, blocks, extra) && forall p :: !Listed(c, routes, p)
    ensures blocks == {} && extra == []
  {
    hide Listed, FirstBlock, GoodPrefix;
    assert forall b: nat :: b !in blocks;
    SomeMember(extra);
  }

  /** With a parseable route the answer is the private blocks some route overlaps
      before any other, in order, and then the canonical texts of the routes that
      overlap none, ascending and each once. */
  lemma CoveringExact(c: Codec, routes: seq<string>, p: Prefix) returns (rest: seq<string>)
    requires Listed(c, routes, p)
    ensures Covering(c, routes) ==
      (if HitFirst(c, routes, TEN, []) then [c.format(TEN)] else [])
      + (if HitFirst(c, routes, ONE_SEVEN_TWO, [TEN]) then [c.format(ONE_SEVEN_TWO)] else [])
      + (if HitFirst(c, routes, ONE_NINE_TWO, [TEN, ONE_SEVEN_TWO]) then [c.format(ONE_NINE_TWO)] else [])
      + rest
    ensures Ordered(rest) && Distinct(rest) && forall x :: x in rest <==> Outside(c, routes, x)
  {
    hide Listed, FirstBlock, Collected, BlockTexts, GoodPrefix, HitFirst, Outside, BlockHit, ExtraHit, Sort;
    CollectedSpec(c, routes);
    HitsExact(c, routes);
    var (blocks, extra) := Collected(c, routes);
    ThreeTexts(c, blocks);
    rest := Sort(extra);
    SortSpec(extra);
    SameMembers(extra, rest);
    DistinctCount(extra);
    DistinctCount(rest);
    SomethingGathered(c, routes, blocks, extra, p);
    assert rest == [] ==> extra == [];
  }

  lemma SomethingGathered(c: Codec, routes: seq<string>, blocks: set<nat>, extra: seq<string>, p: Prefix)
    requires Gathered(c, routes, blocks, extra) && Listed(c, routes, p)
    ensures 0 in blocks || 1 in blocks || 2 in blocks || extra != []
  {
    hide Listed, GoodPrefix;
    ListedGood(c, routes, p);
    if FirstBlock(p) == None {
      assert ExtraHit(c, routes, c.format(p));
    } else {
      assert BlockHit(c, routes, FirstBlock(p).value);
    }
  }
}
