/** The Substrate block tree as the client serves it: headers, leaves and the best chain. */
module HeaderTree {
  import opened Basics
  import opened Consensus

  datatype Header = Header(parent: Hash, number: nat, digest: Digest)

  type Headers = map<Hash, Header>

  /** `leaves` lists the childless headers in any order; `best` is the head of the canonical chain. */
  datatype Chain = Chain(headers: Headers, leaves: seq<Hash>, best: Hash)

  ghost predicate ParentClosed(headers: Headers) {
    forall h {:trigger headers[h].parent} :: h in headers && headers[h].number > 0 ==>
      && headers[h].parent in headers
      && headers[headers[h].parent].number == headers[h].number - 1
  }

  ghost predicate HasChild(headers: Headers, h: Hash) {
    exists c :: c in headers && headers[c].number > 0 && headers[c].parent == h
  }

  ghost predicate ValidChain(chain: Chain) {
    && ParentClosed(chain.headers)
    && chain.best in chain.headers
    && forall h {:trigger h in chain.leaves} :: h in chain.leaves <==> h in chain.headers && !HasChild(chain.headers, h)
  }

  /** One or more imports: headers are added, none changes; leaves and best are whatever they become. */
  ghost predicate Imports(before: Chain, after: Chain) {
    && ValidChain(after)
    && forall h :: h in before.headers ==> h in after.headers && after.headers[h] == before.headers[h]
  }

  /** The ancestor of `h` (or `h` itself) at height `n`. */
  function AncestorAt(headers: Headers, h: Hash, n: nat): (a: Hash)
    requires ParentClosed(headers) && h in headers && n <= headers[h].number
    ensures a in headers && headers[a].number == n
    decreases headers[h].number
  {
    if headers[h].number == n then h else AncestorAt(headers, headers[h].parent, n)
  }

  predicate OnChain(headers: Headers, head: Hash, h: Hash)
    requires ParentClosed(headers) && head in headers
  {
    && h in headers
    && headers[h].number <= headers[head].number
    && AncestorAt(headers, head, headers[h].number) == h
  }

  predicate OnBestChain(chain: Chain, h: Hash)
    requires ValidChain(chain)
  {
    OnChain(chain.headers, chain.best, h)
  }

  /** The chain of a head is the head and the chain of its parent. */
  lemma OnChainUnfolds(headers: Headers, head: Hash, h: Hash)
    requires ParentClosed(headers) && head in headers
    ensures OnChain(headers, head, h) <==>
            h == head || (headers[head].number > 0 && OnChain(headers, headers[head].parent, h))
  {
  }

  /** `client.number(hash)` */
  function NumberOf(chain: Chain, h: Hash): Option<nat> {
    if h in chain.headers then Some(chain.headers[h].number) else None
  }

  /** `client.hash(number)`: the canonical hash at a height, if the best chain is that long. */
  function CanonicalHash(chain: Chain, n: nat): Option<Hash>
    requires ValidChain(chain)
  {
    if n <= chain.headers[chain.best].number then Some(AncestorAt(chain.headers, chain.best, n)) else None
  }

  /** The canonical hash at a height is the block of the best chain that has that number. */
  lemma CanonicalHashExact(chain: Chain, n: nat, h: Hash)
    requires ValidChain(chain)
    ensures CanonicalHash(chain, n) == Some(h) <==> OnBestChain(chain, h) && chain.headers[h].number == n
  {
  }

  /** `is_canon`: the hash has a number, and the best chain has that hash at that number. */
  predicate IsCanon(chain: Chain, target: Hash)
    requires ValidChain(chain)
  {
    match NumberOf(chain, target)
    case None => false
    case Some(number) =>
      match CanonicalHash(chain, number)
      case None => false
      case Some(hash) => hash == target
  }

  /** Every finite set of headers has a height no member exceeds. */
  lemma {:induction false} HeightBound(headers: Headers, s: set<Hash>) returns (top: nat)
    requires s <= headers.Keys
    ensures forall h :: h in s ==> headers[h].number <= top
  {
    if s == {} {
      top := 0;
    } else {
      var x :| x in s;
      var t := HeightBound(headers, s - {x});
      top := Max(t, headers[x].number);
      assert forall h :: h in s ==> h == x || h in s - {x};
    }
  }
}
