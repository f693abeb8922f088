/** The node-address cache (pkg/utils/util.go). */
module NodeAddress {
  import opened GoStrings

  datatype Kind = InternalIP | ExternalIP | OtherAddress(name: string)

  datatype Address = Address(kind: Kind, text: string)

  datatype LookupError = ApiFailed | NoIp

  /** The cluster's nodes; a node that is missing makes the API call fail. */
  type Nodes = map<string, seq<Address>>

  function FirstOf(addresses: seq<Address>, kind: Kind): Option<string> {
    if addresses == [] then None
    else if addresses[0].kind == kind then Some(addresses[0].text)
    else FirstOf(addresses[1..], kind)
  }

  /** What a lookup without any cache answers: the first internal address in list order, else the
      first external one. */
  function Uncached(nodes: Nodes, node: string): Result<string, LookupError> {
    if node !in nodes then Err(ApiFailed)
    else
      match FirstOf(nodes[node], InternalIP)
      case Some(a) => Ok(a)
      case None =>
        match FirstOf(nodes[node], ExternalIP)
        case Some(a) => Ok(a)
        case None => Err(NoIp)
  }

  predicate IsFirst(addresses: seq<Address>, kind: Kind, i: nat) {
    i < |addresses| && addresses[i].kind == kind && forall j :: 0 <= j < i ==> addresses[j].kind != kind
  }

  lemma {:induction false} FirstOfExact(addresses: seq<Address>, kind: Kind)
    ensures FirstOf(addresses, kind).None? <==> forall i :: 0 <= i < |addresses| ==> addresses[i].kind != kind
    ensures forall i: nat :: IsFirst(addresses, kind, i) ==> FirstOf(addresses, kind) == Some(addresses[i].text)
  {
    if addresses != [] {
      FirstOfExact(addresses[1..], kind);
      assert forall i :: 1 <= i < |addresses| ==> addresses[i] == addresses[1..][i - 1];
      forall i: nat | IsFirst(addresses, kind, i) && i > 0
        ensures FirstOf(addresses, kind) == Some(addresses[i].text)
      {
        assert IsFirst(addresses[1..], kind, i - 1);
      }
    }
  }

  /** The group that the loop has collected for a kind. */
  function Group(addresses: seq<Address>, kind: Kind): seq<Address> {
    if addresses == [] then []
    else
      var front, last := addresses[..|addresses| - 1], addresses[|addresses| - 1];
      Group(front, kind) + (if last.kind == kind then [last] else [])
  }

  lemma {:induction false} GroupHead(addresses: seq<Address>, kind: Kind)
    ensures FirstOf(addresses, kind) == if Group(addresses, kind) == [] then None else Some(Group(addresses, kind)[0].text)
  {
    if addresses != [] {
      var front, last := addresses[..|addresses| - 1], addresses[|addresses| - 1];
      GroupHead(front, kind);
      assert addresses == front + [last];
      FirstOfSnoc(front, last, kind);
    }
  }

  lemma {:induction false} FirstOfSnoc(front: seq<Address>, last: Address, kind: Kind)
    ensures FirstOf(front + [last], kind) ==
      if FirstOf(front, kind).Some? then FirstOf(front, kind) else if last.kind == kind then Some(last.text) else None
  {
    if front != [] {
      FirstOfSnoc(front[1..], last, kind);
      assert (front + [last])[1..] == front[1..] + [last];
    }
  }

  /** The grouping loop. */
  method GroupByKind(addresses: seq<Address>) returns (groups: map<Kind, seq<Address>>)
    ensures forall k :: k in groups ==> groups[k] == Group(addresses, k) && groups[k] != []
    ensures forall k :: k !in groups ==> Group(addresses, k) == []
  {
    groups := map[];
    for i := 0 to |addresses|
      invariant forall k :: k in groups ==> groups[k] == Group(addresses[..i], k) && groups[k] != []
      invariant forall k :: k !in groups ==> Group(addresses[..i], k) == []
    {
      var a := addresses[i];
      assert addresses[..i + 1][..i] == addresses[..i] && addresses[..i + 1][i] == a;
      groups := groups[a.kind := (if a.kind in groups then groups[a.kind] else []) + [a]];
    }
    assert addresses[..|addresses|] == addresses;
  }

  /** A lookup without a cache, exactly: the first internal address, the first external one when there is no
      internal one, and the two errors. */
  lemma UncachedExact(nodes: Nodes, node: string)
    ensures Uncached(nodes, node) == Err(ApiFailed) <==> node !in nodes
    ensures node in nodes ==>
      var list := nodes[node];
      && (forall i: nat :: IsFirst(list, InternalIP, i) ==> Uncached(nodes, node) == Ok(list[i].text))
      && (forall i: nat :: IsFirst(list, ExternalIP, i) && (forall j :: 0 <= j < |list| ==> list[j].kind != InternalIP)
            ==> Uncached(nodes, node) == Ok(list[i].text))
      && (Uncached(nodes, node) == Err(NoIp) <==>
            forall j :: 0 <= j < |list| ==> list[j].kind != InternalIP && list[j].kind != ExternalIP)
  {
    if node in nodes {
      FirstOfExact(nodes[node], InternalIP);
      FirstOfExact(nodes[node], ExternalIP);
    }
  }

  // ---------- the cache ----------

  type Answer = Result<string, LookupError>

  /** A lookup through the cache: a non-empty cached text is the answer, and answers are cached. */
  function CachedLookup(cache: map<string, string>, nodes: Nodes, node: string): (map<string, string>, Answer) {
    if node in cache && cache[node] != "" then (cache, Ok(cache[node]))
    else
      match Uncached(nodes, node)
      case Ok(a) => (cache[node := a], Ok(a))
      case Err(e) => (cache, Err(e))
  }

  class Cache {
    var addrs: map<string, string>

    constructor ()
      ensures addrs == map[]
    {
      addrs := map[];
    }

    method GetNodeIp(nodes: Nodes, node: string) returns (r: Answer)
      modifies this
      ensures (addrs, r) == CachedLookup(old(addrs), nodes, node)
    {
      if node in addrs && addrs[node] != "" {
        return Ok(addrs[node]);
      }
      if node !in nodes {
        return Err(ApiFailed);
      }
      var groups: map<Kind, seq<Address>> := GroupByKind(nodes[node]);
      GroupHead(nodes[node], InternalIP);
      GroupHead(nodes[node], ExternalIP);
      if InternalIP in groups {
        addrs := addrs[node := groups[InternalIP][0].text];
        return Ok(groups[InternalIP][0].text);
      }
      if ExternalIP in groups {
        addrs := addrs[node := groups[ExternalIP][0].text];
        return Ok(groups[ExternalIP][0].text);
      }
      return Err(NoIp);
    }
  }

  /** Every cached text is the answer of an uncached lookup. */
  ghost predicate Faithful(cache: map<string, string>, nodes: Nodes) {
    forall node :: node in cache ==> Uncached(nodes, node) == Ok(cache[node])
  }

  function CachedAnswers(cache: map<string, string>, nodes: Nodes, queries: seq<string>): seq<Answer>
    decreases |queries|
  {
    if queries == [] then []
    else
      var step := CachedLookup(cache, nodes, queries[0]);
      [step.1] + CachedAnswers(step.0, nodes, queries[1..])
  }

  /** For every sequence of lookups from an empty or faithful cache against unchanging nodes, each
      answer is the one an uncached lookup gives. */
  lemma {:induction false} CacheNeverChangesAnswers(cache: map<string, string>, nodes: Nodes, queries: seq<string>)
    requires Faithful(cache, nodes)
    ensures |CachedAnswers(cache, nodes, queries)| == |queries|
    ensures forall i :: 0 <= i < |queries| ==> CachedAnswers(cache, nodes, queries)[i] == Uncached(nodes, queries[i])
    decreases |queries|
  {
    if queries != [] {
      var cache1 := CachedLookup(cache, nodes, queries[0]).0;
      CacheNeverChangesAnswers(cache1, nodes, queries[1..]);
      assert forall i :: 1 <= i < |queries| ==> queries[i] == queries[1..][i - 1];
    }
  }

  /** Lookups against nodes that change between them. */
  function CacheAfter(cache: map<string, string>, queries: seq<(Nodes, string)>): map<string, string>
    decreases |queries|
  {
    if queries == [] then cache else CacheAfter(CachedLookup(cache, queries[0].0, queries[0].1).0, queries[1..])
  }

  /** What was answered once is answered for good: after a lookup that gave a text, every lookup of that node
      gives the same text, whatever was looked up in between and whatever has become of the node. */
  lemma AnswersAreKept(cache: map<string, string>, nodes: Nodes, node: string, between: seq<(Nodes, string)>, later: Nodes)
    requires CachedLookup(cache, nodes, node).1.Ok? && CachedLookup(cache, nodes, node).1.value != ""
    ensures var first := CachedLookup(cache, nodes, node);
      CachedLookup(CacheAfter(first.0, between), later, node).1 == first.1
  {
    KeptInCache(CachedLookup(cache, nodes, node).0, node, between);
  }

  lemma {:induction false} KeptInCache(cache: map<string, string>, node: string, queries: seq<(Nodes, string)>)
    requires node in cache && cache[node] != ""
    ensures var last := CacheAfter(cache, queries); node in last && last[node] == cache[node]
    decreases |queries|
  {
    if queries != [] { KeptInCache(CachedLookup(cache, queries[0].0, queries[0].1).0, node, queries[1..]); }
  }

  /** Nothing is kept of a failed lookup, and an empty text is looked up again. */
  lemma FailuresAreNotKept(cache: map<string, string>, nodes: Nodes, node: string)
    requires node in cache ==> cache[node] == ""
    ensures CachedLookup(cache, nodes, node).1 == Uncached(nodes, node)
    ensures Uncached(nodes, node).Err? ==> CachedLookup(cache, nodes, node).0 == cache
  {
  }
}
