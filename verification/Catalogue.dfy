/**
 * The grouped read model: markets, selections and quotes fetched for a batch of
 * events and filed by maps, and the comparison grid of one market.
 */
module Catalogue {
  import opened Prelude

  datatype Market = Market(id: string, eventId: string)
  datatype Selection = Selection(id: string, marketId: string, displayOrder: int)
  datatype Quote = Quote(selectionId: string, bookId: string, odds: real)

  /** What the store holds: the current quote of each (selection, book). */
  datatype Store = Store(markets: seq<Market>, selections: seq<Selection>, quotes: seq<Quote>)

  /** The elements that satisfy a test, in order. */
  function Select<T>(s: seq<T>, keep: T -> bool): seq<T> {
    if s == [] then []
    else Select(s[..|s| - 1], keep) + if keep(s[|s| - 1]) then [s[|s| - 1]] else []
  }

  lemma SelectSnoc<T>(s: seq<T>, x: T, keep: T -> bool)
    ensures Select(s + [x], keep) == Select(s, keep) + if keep(x) then [x] else []
  {
    assert (s + [x])[..|s|] == s;
  }

  lemma {:induction false} SelectMembers<T>(s: seq<T>, keep: T -> bool, x: T)
    ensures x in Select(s, keep) <==> x in s && keep(x)
    ensures multiset(Select(s, keep))[x] == if keep(x) then multiset(s)[x] else 0
  {
    if s != [] {
      SelectMembers(s[..|s| - 1], keep, x);
      assert s == s[..|s| - 1] + [s[|s| - 1]];
    }
  }

  /** `kept` is the elements of `s` at the increasing positions `at`, which are all that pass the test. */
  ghost predicate KeptAt<T>(s: seq<T>, keep: T -> bool, kept: seq<T>, at: seq<nat>) {
    && |at| == |kept| && (forall i, j | 0 <= i < j < |at| :: at[i] < at[j])
    && (forall i | 0 <= i < |at| :: at[i] < |s| && keep(s[at[i]]) && kept[i] == s[at[i]])
    && (forall k: nat | k < |s| && keep(s[k]) :: k in at)
  }

  lemma KeptAtSnoc<T>(s: seq<T>, keep: T -> bool, kept: seq<T>, at: seq<nat>, x: T)
    requires KeptAt(s, keep, kept, at)
    ensures keep(x) ==> KeptAt(s + [x], keep, kept + [x], at + [|s|])
    ensures !keep(x) ==> KeptAt(s + [x], keep, kept, at)
  {
    var longer := s + [x];
    forall k: nat | k < |longer| && keep(longer[k]) ensures k in at || k == |s| {
      assert k < |s| ==> longer[k] == s[k];
    }
    assert keep(x) ==> (at + [|s|])[|at|] == |s|;
  }

  /** Selecting keeps the stored order and skips nothing that passes. */
  lemma {:induction false} SelectInOrder<T>(s: seq<T>, keep: T -> bool) returns (at: seq<nat>)
    ensures KeptAt(s, keep, Select(s, keep), at)
  {
    if s == [] {
      at := [];
    } else {
      var init, x := s[..|s| - 1], s[|s| - 1];
      at := SelectInOrder(init, keep);
      hide KeptAt;
      KeptAtSnoc(init, keep, Select(init, keep), at, x);
      assert s == init + [x];
      if keep(x) {
        at := at + [|init|];
      } else {
        assert Select(init, keep) + [] == Select(init, keep);
      }
    }
  }

  /** A first pass that keeps everything the second would keep changes nothing. */
  lemma {:induction false} SelectTwice<T>(s: seq<T>, wide: T -> bool, narrow: T -> bool)
    requires forall x | x in s && narrow(x) :: wide(x)
    ensures Select(Select(s, wide), narrow) == Select(s, narrow)
  {
    if s != [] {
      var init, x := s[..|s| - 1], s[|s| - 1];
      assert forall y | y in init :: y in s;
      assert x in s;
      SelectTwice(init, wide, narrow);
      if wide(x) {
        SelectSnoc(Select(init, wide), x, narrow);
      } else {
        assert Select(s, wide) == Select(init, wide);
      }
    }
  }

  function OfEvents(ids: set<string>): Market -> bool { (m: Market) => m.eventId in ids }
  function OfEvent(id: string): Market -> bool { (m: Market) => m.eventId == id }
  function OfMarkets(ids: set<string>): Selection -> bool { (s: Selection) => s.marketId in ids }
  function OfMarket(id: string): Selection -> bool { (s: Selection) => s.marketId == id }
  function OfSelections(ids: set<string>): Quote -> bool { (q: Quote) => q.selectionId in ids }

  /** An absent filter shows every book. */
  type Filter = Option<set<string>>

  predicate Shown(filter: Filter, q: Quote) { filter.Some? ==> q.bookId in filter.value }

  function ShownOf(filter: Filter, selectionId: string): Quote -> bool {
    (q: Quote) => q.selectionId == selectionId && Shown(filter, q)
  }

  function ShownBy(filter: Filter, bookId: string): Quote -> bool {
    (q: Quote) => q.bookId == bookId && Shown(filter, q)
  }

  datatype SelectionNode = SelectionNode(selection: Selection, quotes: seq<Quote>)
  datatype MarketNode = MarketNode(market: Market, selections: seq<SelectionNode>)

  /** Selections in display order; `Arrange` stands for the stable sort by role and identifier. */
  type Arrange = seq<Selection> -> seq<Selection>

  ghost predicate Rearranges(arrange: Arrange) { forall s :: multiset(arrange(s)) == multiset(s) }

  /** What one market renders as, straight from the store. */
  ghost function NodeOf(c: Store, filter: Filter, arrange: Arrange, m: Market): MarketNode {
    MarketNode(m, NodesOf(c, filter, arrange(Select(c.selections, OfMarket(m.id)))))
  }

  ghost function NodesOf(c: Store, filter: Filter, ordered: seq<Selection>): (r: seq<SelectionNode>)
    ensures |r| == |ordered|
  {
    seq(|ordered|, i requires 0 <= i < |ordered| =>
      SelectionNode(ordered[i], Select(c.quotes, ShownOf(filter, ordered[i].id))))
  }

  /** What one event renders as on its own. */
  ghost function EventTree(c: Store, filter: Filter, arrange: Arrange, eventId: string): seq<MarketNode> {
    var own := Select(c.markets, OfEvent(eventId));
    seq(|own|, i requires 0 <= i < |own| => NodeOf(c, filter, arrange, own[i]))
  }

  function Entry<T>(m: map<string, seq<T>>, key: string): seq<T> { if key in m then m[key] else [] }

  /** Files each selection under its market. */
  method ByMarket(selections: seq<Selection>) returns (r: map<string, seq<Selection>>)
    ensures forall k :: Entry(r, k) == Select(selections, OfMarket(k))
  {
    r := map[];
    for i := 0 to |selections|
      invariant forall k :: Entry(r, k) == Select(selections[..i], OfMarket(k))
    {
      var s := selections[i];
      assert selections[..i + 1] == selections[..i] + [s];
      forall k ensures Select(selections[..i + 1], OfMarket(k))
                    == Select(selections[..i], OfMarket(k)) + if s.marketId == k then [s] else [] {
        SelectSnoc(selections[..i], s, OfMarket(k));
      }
      hide Select;
      r := r[s.marketId := Entry(r, s.marketId) + [s]];
    }
    assert selections[..|selections|] == selections;
  }

  ghost predicate FiledBySelection(r: map<string, seq<Quote>>, quotes: seq<Quote>, filter: Filter) {
    forall k :: Entry(r, k) == Select(quotes, ShownOf(filter, k))
  }

  lemma FiledBySelectionSnoc(r: map<string, seq<Quote>>, quotes: seq<Quote>, filter: Filter, q: Quote)
    requires FiledBySelection(r, quotes, filter)
    ensures FiledBySelection(if Shown(filter, q) then r[q.selectionId := Entry(r, q.selectionId) + [q]] else r,
                             quotes + [q], filter)
  {
    var after := if Shown(filter, q) then r[q.selectionId := Entry(r, q.selectionId) + [q]] else r;
    forall k ensures Entry(after, k) == Select(quotes + [q], ShownOf(filter, k)) {
      SelectSnoc(quotes, q, ShownOf(filter, k));
      assert Entry(r, k) == Select(quotes, ShownOf(filter, k));
    }
  }

  /** Files each quote that passes the book filter under its selection. */
  method BySelection(quotes: seq<Quote>, filter: Filter) returns (r: map<string, seq<Quote>>)
    ensures FiledBySelection(r, quotes, filter)
  {
    r := map[];
    for i := 0 to |quotes|
      invariant FiledBySelection(r, quotes[..i], filter)
    {
      hide FiledBySelection;
      var q := quotes[i];
      assert quotes[..i + 1] == quotes[..i] + [q];
      FiledBySelectionSnoc(r, quotes[..i], filter, q);
      if Shown(filter, q) {
        r := r[q.selectionId := Entry(r, q.selectionId) + [q]];
      }
    }
    assert quotes[..|quotes|] == quotes;
  }

  /** One market with its selections in display order and the quotes filed under each. */
  method WireMarket(m: Market, ordered: seq<Selection>, bySelection: map<string, seq<Quote>>) returns (node: MarketNode)
    ensures node.market == m && |node.selections| == |ordered|
    ensures forall i | 0 <= i < |ordered| ::
              node.selections[i] == SelectionNode(ordered[i], Entry(bySelection, ordered[i].id))
  {
    var nodes := [];
    for i := 0 to |ordered|
      invariant |nodes| == i
      invariant forall j | 0 <= j < i :: nodes[j] == SelectionNode(ordered[j], Entry(bySelection, ordered[j].id))
    {
      nodes := nodes + [SelectionNode(ordered[i], Entry(bySelection, ordered[i].id))];
    }
    node := MarketNode(m, nodes);
  }

  /** What the batched queries and maps hold for a set of markets. */
  ghost predicate Batch(c: Store, filter: Filter, marketIds: set<string>, byMarket: map<string, seq<Selection>>,
                        bySelection: map<string, seq<Quote>>) {
    var selections := Select(c.selections, OfMarkets(marketIds));
    var quotes := Select(c.quotes, OfSelections(set s | s in selections :: s.id));
    && (forall k :: Entry(byMarket, k) == Select(selections, OfMarket(k)))
    && FiledBySelection(bySelection, quotes, filter)
  }

  /** The batch gives each of its markets what the store would give it alone. */
  lemma BatchNode(c: Store, filter: Filter, arrange: Arrange, marketIds: set<string>,
                  byMarket: map<string, seq<Selection>>, bySelection: map<string, seq<Quote>>, m: Market, node: MarketNode)
    requires Rearranges(arrange) && m.id in marketIds && Batch(c, filter, marketIds, byMarket, bySelection)
    requires var ordered := arrange(Entry(byMarket, m.id));
             && node.market == m && |node.selections| == |ordered|
             && forall i | 0 <= i < |ordered| ::
                  node.selections[i] == SelectionNode(ordered[i], Entry(bySelection, ordered[i].id))
    ensures node == NodeOf(c, filter, arrange, m)
  {
    var selections := Select(c.selections, OfMarkets(marketIds));
    var selectionIds := set s | s in selections :: s.id;
    var own := Select(selections, OfMarket(m.id));
    var ordered := arrange(own);
    SelectTwice(c.selections, OfMarkets(marketIds), OfMarket(m.id));
    forall i | 0 <= i < |ordered| ensures node.selections[i] == NodesOf(c, filter, ordered)[i] {
      var s := ordered[i];
      assert s in multiset(ordered);
      assert s in own;
      SelectMembers(selections, OfMarket(m.id), s);
      assert s.id in selectionIds;
      SelectTwice(c.quotes, OfSelections(selectionIds), ShownOf(filter, s.id));
    }
  }

  /** Appends each market to its own event's list. */
  method FileMarkets(events: set<string>, markets: seq<Market>, nodes: seq<MarketNode>)
    returns (out: map<string, seq<MarketNode>>)
    requires |nodes| == |markets|
    requires forall m | m in markets :: m.eventId in events
    ensures out.Keys == events
    ensures forall e | e in events :: out[e] == Filed(markets, nodes, e)
  {
    out := map e | e in events :: [];
    for i := 0 to |markets|
      invariant out.Keys == events
      invariant forall e | e in events :: out[e] == Filed(markets[..i], nodes[..i], e)
    {
      var m := markets[i];
      assert m in markets;
      assert markets[..i + 1][..i] == markets[..i] && nodes[..i + 1][..i] == nodes[..i];
      out := out[m.eventId := out[m.eventId] + [nodes[i]]];
    }
    assert markets[..|markets|] == markets && nodes[..|nodes|] == nodes;
  }

  /** The nodes whose market belongs to the event, in order. */
  function Filed(markets: seq<Market>, nodes: seq<MarketNode>, eventId: string): seq<MarketNode>
    requires |nodes| == |markets|
  {
    if markets == [] then []
    else
      var m := |markets| - 1;
      Filed(markets[..m], nodes[..m], eventId) + if markets[m].eventId == eventId then [nodes[m]] else []
  }

  /** Filing nodes by event is rendering the event's own markets. */
  lemma {:induction false} FiledIsOwn(c: Store, filter: Filter, arrange: Arrange, markets: seq<Market>,
                                      nodes: seq<MarketNode>, eventId: string)
    requires |nodes| == |markets|
    requires forall i | 0 <= i < |markets| :: nodes[i] == NodeOf(c, filter, arrange, markets[i])
    ensures var own := Select(markets, OfEvent(eventId));
            Filed(markets, nodes, eventId)
            == seq(|own|, i requires 0 <= i < |own| => NodeOf(c, filter, arrange, own[i]))
  {
    if markets != [] {
      var m := |markets| - 1;
      hide NodeOf;
      FiledIsOwn(c, filter, arrange, markets[..m], nodes[..m], eventId);
    }
  }

  /** The two further queries for a batch of markets, filed by maps. */
  method FetchBatch(c: Store, filter: Filter, marketIds: set<string>)
    returns (byMarket: map<string, seq<Selection>>, bySelection: map<string, seq<Quote>>)
    ensures Batch(c, filter, marketIds, byMarket, bySelection)
  {
    var selections := Select(c.selections, OfMarkets(marketIds));
    byMarket := ByMarket(selections);
    var selectionIds := set s | s in selections :: s.id;
    var quotes := Select(c.quotes, OfSelections(selectionIds));
    bySelection := BySelection(quotes, filter);
  }

  /** A node for each market of a batch. */
  method RenderMarkets(c: Store, filter: Filter, arrange: Arrange, markets: seq<Market>) returns (nodes: seq<MarketNode>)
    requires Rearranges(arrange)
    ensures |nodes| == |markets| && forall i | 0 <= i < |markets| :: nodes[i] == NodeOf(c, filter, arrange, markets[i])
  {
    hide NodeOf, Batch, Rearranges;
    var marketIds := set m | m in markets :: m.id;
    var byMarket, bySelection := FetchBatch(c, filter, marketIds);
    nodes := [];
    for i := 0 to |markets|
      invariant |nodes| == i && forall j | 0 <= j < i :: nodes[j] == NodeOf(c, filter, arrange, markets[j])
    {
      var m := markets[i];
      assert m in markets && m.id in marketIds;
      var node := WireMarket(m, arrange(Entry(byMarket, m.id)), bySelection);
      BatchNode(c, filter, arrange, marketIds, byMarket, bySelection, m, node);
      nodes := nodes + [node];
    }
  }

  /**
   * The batched tree: three queries for all the events at once, filed by maps. Each
   * event gets exactly what it would be built from alone.
   */
  method MarketTree(c: Store, events: seq<string>, filter: Filter, arrange: Arrange)
    returns (out: map<string, seq<MarketNode>>)
    requires Rearranges(arrange)
    ensures out.Keys == set e | e in events
    ensures forall e | e in events :: out[e] == EventTree(c, filter, arrange, e)
  {
    var eventIds := set e | e in events;
    var markets := Select(c.markets, OfEvents(eventIds));
    var nodes := RenderMarkets(c, filter, arrange, markets);
    forall m | m in markets ensures m.eventId in eventIds {
      SelectMembers(c.markets, OfEvents(eventIds), m);
    }
    out := FileMarkets(eventIds, markets, nodes);
    forall e | e in events ensures out[e] == EventTree(c, filter, arrange, e) {
      hide NodeOf, Filed;
      FiledIsOwn(c, filter, arrange, markets, nodes, e);
      SelectTwice(c.markets, OfEvents(eventIds), OfEvent(e));
    }
  }

  /** A market is filed as often as the store holds it, and under its own event only. */
  lemma MarketFiledOnce(c: Store, filter: Filter, arrange: Arrange, eventId: string, m: Market)
    ensures var own := Select(c.markets, OfEvent(eventId));
            && |EventTree(c, filter, arrange, eventId)| == |own|
            && (forall i | 0 <= i < |own| :: EventTree(c, filter, arrange, eventId)[i].market == own[i])
            && multiset(own)[m] == if m.eventId == eventId then multiset(c.markets)[m] else 0
  {
    SelectMembers(c.markets, OfEvent(eventId), m);
  }

  /** The quotes shown for a selection, and the quotes of a book's row: their own, from the books asked for, as often as stored. */
  lemma ShownExactly(quotes: seq<Quote>, filter: Filter, id: string, q: Quote)
    ensures multiset(Select(quotes, ShownOf(filter, id)))[q]
         == if q.selectionId == id && (filter == None || q.bookId in filter.value) then multiset(quotes)[q] else 0
    ensures multiset(Select(quotes, ShownBy(filter, id)))[q]
         == if q.bookId == id && (filter == None || q.bookId in filter.value) then multiset(quotes)[q] else 0
  {
    SelectMembers(quotes, ShownOf(filter, id), q);
    SelectMembers(quotes, ShownBy(filter, id), q);
  }

  function SelectionsIn(node: MarketNode): (r: seq<Selection>)
    ensures |r| == |node.selections|
  {
    seq(|node.selections|, i requires 0 <= i < |node.selections| => node.selections[i].selection)
  }

  /** Under a market stand its own selections, as often as stored, and under each of them its own shown quotes. */
  lemma NodeRows(c: Store, filter: Filter, arrange: Arrange, m: Market, x: Selection, q: Quote, i: nat)
    requires Rearranges(arrange) && i < |NodeOf(c, filter, arrange, m).selections|
    ensures var node := NodeOf(c, filter, arrange, m);
            && node.market == m
            && multiset(SelectionsIn(node))[x] == (if x.marketId == m.id then multiset(c.selections)[x] else 0)
            && multiset(node.selections[i].quotes)[q]
               == (if q.selectionId == node.selections[i].selection.id && (filter == None || q.bookId in filter.value)
                   then multiset(c.quotes)[q] else 0)
  {
    var own := Select(c.selections, OfMarket(m.id));
    assert SelectionsIn(NodeOf(c, filter, arrange, m)) == arrange(own);
    SelectMembers(c.selections, OfMarket(m.id), x);
    ShownExactly(c.quotes, filter, arrange(own)[i].id, q);
  }

  /** A book's row of the grid: its shown quotes, and whether a margin may be published over them. */
  datatype BookRow = BookRow(quotes: seq<Quote>, overround: bool)

  /** The first of the highest shown prices of a selection. */
  ghost predicate IsBest(quotes: seq<Quote>, filter: Filter, selectionId: string, best: Option<Quote>) {
    var shown := Select(quotes, ShownOf(filter, selectionId));
    match best
    case None => shown == []
    case Some(b) =>
      exists i :: 0 <= i < |shown| && shown[i] == b
        && (forall j | 0 <= j < |shown| :: shown[j].odds <= b.odds)
        && forall j | 0 <= j < i :: shown[j].odds < b.odds
  }

  /** The quote is of the selection, from a book asked for. */
  predicate Offers(q: Quote, filter: Filter, selectionId: string) {
    q.selectionId == selectionId && (filter == None || q.bookId in filter.value)
  }

  /** The quote stored at `k` is an offer, none is higher, and none stored before it is as high. */
  predicate BestAt(quotes: seq<Quote>, filter: Filter, selectionId: string, k: nat)
    requires k < |quotes|
  {
    && Offers(quotes[k], filter, selectionId)
    && (forall j | 0 <= j < |quotes| && Offers(quotes[j], filter, selectionId) :: quotes[j].odds <= quotes[k].odds)
    && forall j | 0 <= j < k && Offers(quotes[j], filter, selectionId) :: quotes[j].odds < quotes[k].odds
  }

  predicate FirstHighest(shown: seq<Quote>, i: nat)
    requires i < |shown|
  {
    (forall j | 0 <= j < |shown| :: shown[j].odds <= shown[i].odds) && forall j | 0 <= j < i :: shown[j].odds < shown[i].odds
  }

  lemma HighestIsBest(quotes: seq<Quote>, filter: Filter, selectionId: string, shown: seq<Quote>, at: seq<nat>, i: nat)
    requires KeptAt(quotes, ShownOf(filter, selectionId), shown, at) && i < |shown|
    ensures FirstHighest(shown, i) <==> BestAt(quotes, filter, selectionId, at[i])
  {
    var keep := ShownOf(filter, selectionId);
    if FirstHighest(shown, i) {
      forall j | 0 <= j < |quotes| && Offers(quotes[j], filter, selectionId)
        ensures quotes[j].odds <= quotes[at[i]].odds && (j < at[i] ==> quotes[j].odds < quotes[at[i]].odds)
      {
        var l := PositionOf(quotes, keep, shown, at, j);
        assert shown[l] == quotes[j];
      }
    }
    if BestAt(quotes, filter, selectionId, at[i]) {
      forall j | 0 <= j < |shown| ensures shown[j].odds <= shown[i].odds && (j < i ==> shown[j].odds < shown[i].odds) {
        assert Offers(quotes[at[j]], filter, selectionId);
      }
    }
  }

  /** Position by position in the stored quotes: the best is the first of the highest offers. */
  lemma BestExactly(quotes: seq<Quote>, filter: Filter, selectionId: string, best: Quote)
    ensures IsBest(quotes, filter, selectionId, Some(best)) <==>
            exists k: nat | k < |quotes| :: quotes[k] == best && BestAt(quotes, filter, selectionId, k)
  {
    var keep := ShownOf(filter, selectionId);
    var at := SelectInOrder(quotes, keep);
    var shown := Select(quotes, keep);
    FirstOfShown(quotes, filter, selectionId, best);
    hide Select, IsBest, BestAt, FirstHighest;
    if IsBest(quotes, filter, selectionId, Some(best)) {
      var i: nat :| i < |shown| && shown[i] == best && FirstHighest(shown, i);
      HighestIsBest(quotes, filter, selectionId, shown, at, i);
      assert quotes[at[i]] == best;
    }
    if exists k: nat | k < |quotes| :: quotes[k] == best && BestAt(quotes, filter, selectionId, k) {
      var k: nat :| k < |quotes| && quotes[k] == best && BestAt(quotes, filter, selectionId, k);
      BestIsOffer(quotes, filter, selectionId, k);
      var i := PositionOf(quotes, keep, shown, at, k);
      HighestIsBest(quotes, filter, selectionId, shown, at, i);
      assert shown[i] == best;
    }
  }

  lemma FirstOfShown(quotes: seq<Quote>, filter: Filter, selectionId: string, best: Quote)
    ensures var shown := Select(quotes, ShownOf(filter, selectionId));
            IsBest(quotes, filter, selectionId, Some(best)) <==>
            exists i: nat | i < |shown| :: shown[i] == best && FirstHighest(shown, i)
  {
    var shown := Select(quotes, ShownOf(filter, selectionId));
    hide Select;
    if IsBest(quotes, filter, selectionId, Some(best)) {
      var i :| 0 <= i < |shown| && shown[i] == best
        && (forall j | 0 <= j < |shown| :: shown[j].odds <= best.odds)
        && forall j | 0 <= j < i :: shown[j].odds < best.odds;
      assert FirstHighest(shown, i);
    }
    if exists i: nat | i < |shown| :: shown[i] == best && FirstHighest(shown, i) {
      var i: nat :| i < |shown| && shown[i] == best && FirstHighest(shown, i);
      assert shown[i].odds == best.odds;
    }
  }

  lemma BestIsOffer(quotes: seq<Quote>, filter: Filter, selectionId: string, k: nat)
    requires k < |quotes| && BestAt(quotes, filter, selectionId, k)
    ensures ShownOf(filter, selectionId)(quotes[k])
  {}

  lemma PositionOf(s: seq<Quote>, keep: Quote -> bool, kept: seq<Quote>, at: seq<nat>, k: nat) returns (i: nat)
    requires KeptAt(s, keep, kept, at) && k < |s| && keep(s[k])
    ensures i < |at| && at[i] == k
  {
    i :| 0 <= i < |at| && at[i] == k;
  }

  lemma BestSnoc(quotes: seq<Quote>, q: Quote, filter: Filter, selectionId: string, best: Option<Quote>)
    requires IsBest(quotes, filter, selectionId, best)
    ensures var better := q.selectionId == selectionId && Shown(filter, q) && (best.None? || q.odds > best.value.odds);
            IsBest(quotes + [q], filter, selectionId, if better then Some(q) else best)
  {
    SelectSnoc(quotes, q, ShownOf(filter, selectionId));
    var was := Select(quotes, ShownOf(filter, selectionId));
    var shown := Select(quotes + [q], ShownOf(filter, selectionId));
    hide Select;
    if best.Some? {
      var i :| 0 <= i < |was| && was[i] == best.value
        && (forall j | 0 <= j < |was| :: was[j].odds <= best.value.odds)
        && forall j | 0 <= j < i :: was[j].odds < best.value.odds;
      assert shown[i] == best.value;
    }
    if q.selectionId == selectionId && Shown(filter, q) {
      assert shown[|was|] == q;
    }
  }

  function Lookup(m: map<string, Quote>, key: string): Option<Quote> { if key in m then Some(m[key]) else None }

  ghost predicate FiledByBook(byBook: map<string, seq<Quote>>, quotes: seq<Quote>, filter: Filter) {
    forall b :: Entry(byBook, b) == Select(quotes, ShownBy(filter, b))
  }

  ghost predicate BestsOf(best: map<string, Quote>, quotes: seq<Quote>, filter: Filter) {
    forall s :: IsBest(quotes, filter, s, Lookup(best, s))
  }

  lemma FiledByBookSnoc(byBook: map<string, seq<Quote>>, quotes: seq<Quote>, filter: Filter, q: Quote)
    requires FiledByBook(byBook, quotes, filter)
    ensures FiledByBook(if Shown(filter, q) then byBook[q.bookId := Entry(byBook, q.bookId) + [q]] else byBook,
                        quotes + [q], filter)
  {
    var after := if Shown(filter, q) then byBook[q.bookId := Entry(byBook, q.bookId) + [q]] else byBook;
    forall b ensures Entry(after, b) == Select(quotes + [q], ShownBy(filter, b)) {
      SelectSnoc(quotes, q, ShownBy(filter, b));
      assert Entry(byBook, b) == Select(quotes, ShownBy(filter, b));
    }
  }

  /** A shown quote replaces the running best of its selection only when it is strictly higher. */
  predicate Improves(best: map<string, Quote>, filter: Filter, q: Quote) {
    Shown(filter, q) && (q.selectionId !in best || q.odds > best[q.selectionId].odds)
  }

  lemma BestsOfSnoc(best: map<string, Quote>, quotes: seq<Quote>, filter: Filter, q: Quote)
    requires BestsOf(best, quotes, filter)
    ensures BestsOf(if Improves(best, filter, q) then best[q.selectionId := q] else best, quotes + [q], filter)
  {
    var after := if Improves(best, filter, q) then best[q.selectionId := q] else best;
    forall s ensures IsBest(quotes + [q], filter, s, Lookup(after, s)) {
      BestSnoc(quotes, q, filter, s, Lookup(best, s));
      hide IsBest;
    }
  }

  /** One pass over the quotes: every shown quote filed under its book, and a running best per selection. */
  method Tally(quotes: seq<Quote>, filter: Filter) returns (byBook: map<string, seq<Quote>>, best: map<string, Quote>)
    ensures FiledByBook(byBook, quotes, filter) && BestsOf(best, quotes, filter)
  {
    byBook, best := map[], map[];
    for i := 0 to |quotes|
      invariant FiledByBook(byBook, quotes[..i], filter) && BestsOf(best, quotes[..i], filter)
    {
      hide FiledByBook, BestsOf;
      var q := quotes[i];
      assert quotes[..i + 1] == quotes[..i] + [q];
      FiledByBookSnoc(byBook, quotes[..i], filter, q);
      BestsOfSnoc(best, quotes[..i], filter, q);
      if Shown(filter, q) {
        byBook := byBook[q.bookId := Entry(byBook, q.bookId) + [q]];
        if q.selectionId !in best || q.odds > best[q.selectionId].odds {
          best := best[q.selectionId := q];
        }
      }
    }
    assert quotes[..|quotes|] == quotes;
  }

  /** A margin is considered only for a book with as many rows as the market has selections. */
  function Row(quotes: seq<Quote>, selections: seq<Selection>): BookRow {
    BookRow(quotes, |quotes| == |selections| && |quotes| > 0)
  }

  ghost function Quoted(quotes: seq<Quote>, filter: Filter): Selection -> bool {
    (s: Selection) => Select(quotes, ShownOf(filter, s.id)) != []
  }

  /** Exactly the quoted selections, in their order, each with the first of its highest shown prices. */
  ghost predicate BestOfEach(bests: seq<(Selection, Quote)>, selections: seq<Selection>, quotes: seq<Quote>, filter: Filter) {
    var quoted := Select(selections, Quoted(quotes, filter));
    && |bests| == |quoted|
    && forall i | 0 <= i < |bests| :: bests[i].0 == quoted[i] && IsBest(quotes, filter, quoted[i].id, Some(bests[i].1))
  }

  lemma BestOfEachSnoc(bests: seq<(Selection, Quote)>, selections: seq<Selection>, quotes: seq<Quote>, filter: Filter,
                       best: map<string, Quote>, s: Selection)
    requires BestOfEach(bests, selections, quotes, filter) && BestsOf(best, quotes, filter)
    ensures BestOfEach(if s.id in best then bests + [(s, best[s.id])] else bests, selections + [s], quotes, filter)
  {
    SelectSnoc(selections, s, Quoted(quotes, filter));
    assert IsBest(quotes, filter, s.id, Lookup(best, s.id));
    QuotedHasBest(quotes, filter, best, s.id);
    hide IsBest, BestsOf, Select;
  }

  method BestPrices(selections: seq<Selection>, quotes: seq<Quote>, filter: Filter, best: map<string, Quote>)
    returns (bests: seq<(Selection, Quote)>)
    requires BestsOf(best, quotes, filter)
    ensures BestOfEach(bests, selections, quotes, filter)
  {
    bests := [];
    for i := 0 to |selections|
      invariant BestOfEach(bests, selections[..i], quotes, filter)
    {
      hide BestOfEach, BestsOf;
      var s := selections[i];
      assert selections[..i + 1] == selections[..i] + [s];
      BestOfEachSnoc(bests, selections[..i], quotes, filter, best, s);
      if s.id in best {
        bests := bests + [(s, best[s.id])];
      }
    }
    assert selections[..|selections|] == selections;
  }

  lemma QuotedHasBest(quotes: seq<Quote>, filter: Filter, best: map<string, Quote>, id: string)
    requires BestsOf(best, quotes, filter)
    ensures id in best <==> Select(quotes, ShownOf(filter, id)) != []
  {
    assert IsBest(quotes, filter, id, Lookup(best, id));
  }

  /** The comparison grid of one market: a row per book that quoted, and the best price of each selection quoted. */
  method Comparison(selections: seq<Selection>, quotes: seq<Quote>, filter: Filter)
    returns (books: map<string, BookRow>, bests: seq<(Selection, Quote)>)
    ensures forall b :: b in books <==> Select(quotes, ShownBy(filter, b)) != []
    ensures forall b | b in books :: books[b] == Row(Select(quotes, ShownBy(filter, b)), selections)
    ensures BestOfEach(bests, selections, quotes, filter)
  {
    hide BestOfEach, BestsOf;
    var byBook, best := Tally(quotes, filter);
    books := map b | b in byBook && byBook[b] != [] :: Row(byBook[b], selections);
    forall b ensures Entry(byBook, b) == Select(quotes, ShownBy(filter, b)) {
    }
    bests := BestPrices(selections, quotes, filter, best);
  }

  ghost predicate OnMarket(selections: seq<Selection>, quotes: seq<Quote>) {
    forall q | q in quotes :: exists s :: s in selections && s.id == q.selectionId
  }

  ghost predicate DistinctSelections(selections: seq<Selection>) {
    forall i, j | 0 <= i < j < |selections| :: selections[i].id != selections[j].id
  }

  /** At most one current quote of each selection by each book. */
  ghost predicate OneQuoteEach(quotes: seq<Quote>) {
    forall i, j | 0 <= i < j < |quotes| ::
      quotes[i].selectionId != quotes[j].selectionId || quotes[i].bookId != quotes[j].bookId
  }

  /** Every selection of the market is quoted in these rows. */
  ghost predicate Complete(selections: seq<Selection>, rows: seq<Quote>) {
    forall s | s in selections :: exists q :: q in rows && q.selectionId == s.id
  }

  lemma {:induction false} DistinctCount(ids: seq<string>)
    requires forall i, j | 0 <= i < j < |ids| :: ids[i] != ids[j]
    ensures |set x | x in ids| == |ids|
  {
    if ids != [] {
      var init, x := ids[..|ids| - 1], ids[|ids| - 1];
      DistinctCount(init);
      assert (set y | y in ids) == (set y | y in init) + {x};
    }
  }

  lemma SubsetOfSameSize(a: set<string>, b: set<string>)
    requires a <= b && |a| == |b|
    ensures a == b
  {
    assert b == a + (b - a);
    assert |b| == |a| + |b - a|;
  }

  ghost predicate OnePerSelection(rows: seq<Quote>) {
    forall i, j | 0 <= i < j < |rows| :: rows[i].selectionId != rows[j].selectionId
  }

  lemma {:induction false} SelectKeepsDistinct(quotes: seq<Quote>, filter: Filter, bookId: string)
    requires OneQuoteEach(quotes)
    ensures OnePerSelection(Select(quotes, ShownBy(filter, bookId)))
  {
    if quotes != [] {
      var init, q := quotes[..|quotes| - 1], quotes[|quotes| - 1];
      SelectKeepsDistinct(init, filter, bookId);
      var rows := Select(init, ShownBy(filter, bookId));
      forall i | 0 <= i < |rows| && q.bookId == bookId ensures rows[i].selectionId != q.selectionId {
        SelectMembers(init, ShownBy(filter, bookId), rows[i]);
        assert rows[i] in rows;
        var k :| 0 <= k < |init| && init[k] == rows[i];
      }
    }
  }

  lemma RowsOnMarket(selections: seq<Selection>, quotes: seq<Quote>, filter: Filter, bookId: string)
    requires OnMarket(selections, quotes)
    ensures OnMarket(selections, Select(quotes, ShownBy(filter, bookId)))
  {
    forall q | q in Select(quotes, ShownBy(filter, bookId)) ensures q in quotes {
      SelectMembers(quotes, ShownBy(filter, bookId), q);
    }
  }

  /**
   * A book's row count equals the number of selections exactly when it has quoted
   * every one of them, so a margin is published only over a complete market.
   */
  lemma OverroundOnlyWhenComplete(selections: seq<Selection>, quotes: seq<Quote>, filter: Filter, bookId: string)
    requires DistinctSelections(selections) && OneQuoteEach(quotes) && OnMarket(selections, quotes)
    ensures var rows := Select(quotes, ShownBy(filter, bookId));
            Row(rows, selections).overround <==> selections != [] && Complete(selections, rows)
  {
    hide DistinctSelections, OneQuoteEach, OnMarket, OnePerSelection, Complete;
    RowsOnMarket(selections, quotes, filter, bookId);
    SelectKeepsDistinct(quotes, filter, bookId);
    CompleteByCount(selections, Select(quotes, ShownBy(filter, bookId)));
  }

  ghost function QuotedIds(rows: seq<Quote>): (r: seq<string>)
    ensures |r| == |rows| && forall i | 0 <= i < |rows| :: r[i] == rows[i].selectionId
  {
    seq(|rows|, i requires 0 <= i < |rows| => rows[i].selectionId)
  }

  ghost function SelectionIds(selections: seq<Selection>): (r: seq<string>)
    ensures |r| == |selections| && forall i | 0 <= i < |selections| :: r[i] == selections[i].id
  {
    seq(|selections|, i requires 0 <= i < |selections| => selections[i].id)
  }

  lemma QuotedMember(rows: seq<Quote>, id: string)
    ensures id in QuotedIds(rows) <==> exists q :: q in rows && q.selectionId == id
  {
    if id in QuotedIds(rows) {
      var i :| 0 <= i < |rows| && QuotedIds(rows)[i] == id;
      assert rows[i] in rows;
    }
    if exists q :: q in rows && q.selectionId == id {
      var q :| q in rows && q.selectionId == id;
      var i :| 0 <= i < |rows| && rows[i] == q;
      assert QuotedIds(rows)[i] == id;
    }
  }

  lemma SelectionMember(selections: seq<Selection>, id: string)
    ensures id in SelectionIds(selections) <==> exists s :: s in selections && s.id == id
  {
    if id in SelectionIds(selections) {
      var i :| 0 <= i < |selections| && SelectionIds(selections)[i] == id;
      assert selections[i] in selections;
    }
    if exists s :: s in selections && s.id == id {
      var s :| s in selections && s.id == id;
      var i :| 0 <= i < |selections| && selections[i] == s;
      assert SelectionIds(selections)[i] == id;
    }
  }

  /** The pigeonhole step, on two lists without repeats. */
  lemma SameCount(a: seq<string>, b: seq<string>)
    requires forall i, j | 0 <= i < j < |a| :: a[i] != a[j]
    requires forall i, j | 0 <= i < j < |b| :: b[i] != b[j]
    requires forall x | x in a :: x in b
    ensures |a| == |b| <==> forall x | x in b :: x in a
  {
    DistinctCount(a);
    DistinctCount(b);
    var p, q := set x | x in a, set x | x in b;
    assert p <= q;
    if |a| == |b| {
      SubsetOfSameSize(p, q);
      assert forall x | x in b :: x in q;
    }
    if forall x | x in b :: x in a {
      assert p == q;
    }
  }

  lemma CompleteByCount(selections: seq<Selection>, rows: seq<Quote>)
    requires OnePerSelection(rows) && DistinctSelections(selections) && OnMarket(selections, rows)
    ensures |rows| == |selections| <==> Complete(selections, rows)
  {
    var a, b := QuotedIds(rows), SelectionIds(selections);
    forall x | x in a ensures x in b {
      QuotedMember(rows, x);
      SelectionMember(selections, x);
    }
    SameCount(a, b);
    if |rows| == |selections| {
      forall s | s in selections ensures exists q :: q in rows && q.selectionId == s.id {
        SelectionMember(selections, s.id);
        QuotedMember(rows, s.id);
      }
    }
    if Complete(selections, rows) {
      forall x | x in b ensures x in a {
        SelectionMember(selections, x);
        QuotedMember(rows, x);
      }
    }
  }
}
