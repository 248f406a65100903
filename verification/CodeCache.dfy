/** EVM account code, its cached metadata, and the reference counts that keep code-bearing accounts alive. */
module CodeCache {
  import opened Basics

  type Code = seq<nat>

  datatype CodeMetadata = CodeMetadata(size: nat, hash: Hash)

  /**
   * Keccak-256 of code and the mapping from EVM addresses to account ids, as arbitrary functions, and the
   * precomputed hash of empty code.
   */
  datatype Functions = Functions(keccak: Code -> Hash, accountOf: Hash -> Hash, emptyCodeHash: Hash)

  function FromCode(fns: Functions, code: Code): CodeMetadata {
    CodeMetadata(|code|, fns.keccak(code))
  }

  ghost predicate Injective(fns: Functions) {
    forall a, b :: fns.accountOf(a) == fns.accountOf(b) ==> a == b
  }

  /** The addresses with code that map to an account. */
  function Holders(fns: Functions, codes: map<Hash, Code>, account: Hash): set<Hash> {
    set a | a in codes && fns.accountOf(a) == account
  }

  lemma CountWith(s: set<Hash>, a: Hash)
    ensures |s + {a}| == |s| + if a in s then 0 else 1
    ensures |s - {a}| == |s| - if a in s then 1 else 0
  {
    if a in s {
      assert s + {a} == s;
    } else {
      assert s - {a} == s;
    }
  }

  lemma HoldersAdd(fns: Functions, codes: map<Hash, Code>, a: Hash, code: Code, account: Hash)
    ensures |Holders(fns, codes[a := code], account)| ==
            |Holders(fns, codes, account)| + if a !in codes && fns.accountOf(a) == account then 1 else 0
  {
    var before, after := Holders(fns, codes, account), Holders(fns, codes[a := code], account);
    if fns.accountOf(a) == account {
      assert after == before + {a};
      CountWith(before, a);
    } else {
      assert after == before;
    }
  }

  lemma HoldersRemove(fns: Functions, codes: map<Hash, Code>, a: Hash, account: Hash)
    ensures |Holders(fns, codes - {a}, account)| ==
            |Holders(fns, codes, account)| - if a in codes && fns.accountOf(a) == account then 1 else 0
  {
    var before, after := Holders(fns, codes, account), Holders(fns, codes - {a}, account);
    assert after == before - {a};
    CountWith(before, a);
  }

  /** The cache agrees with the code it caches, and no empty code is stored. */
  ghost predicate CacheAgrees(fns: Functions, codes: map<Hash, Code>, metadata: map<Hash, CodeMetadata>) {
    && (forall a :: a in codes ==> |codes[a]| > 0)
    && (forall a :: a in metadata ==> a in codes && metadata[a] == CodeMetadata(|codes[a]|, fns.keccak(codes[a])))
  }

  function CountOf(counts: map<Hash, nat>, account: Hash): nat {
    if account in counts then counts[account] else 0
  }

  /** Every account is counted once more than its base for each address with code that maps to it. */
  ghost predicate Counted(fns: Functions, codes: map<Hash, Code>, base: map<Hash, nat>, counts: map<Hash, nat>) {
    forall account {:trigger CountOf(counts, account)} ::
      CountOf(counts, account) == CountOf(base, account) + |Holders(fns, codes, account)|
  }

  lemma CountedAdd(fns: Functions, codes: map<Hash, Code>, base: map<Hash, nat>, counts: map<Hash, nat>,
                   a: Hash, code: Code)
    requires Counted(fns, codes, base, counts)
    ensures var account := fns.accountOf(a);
            Counted(fns, codes[a := code], base,
                    if a in codes then counts else counts[account := CountOf(counts, account) + 1])
  {
    var account := fns.accountOf(a);
    var counts' := if a in codes then counts else counts[account := CountOf(counts, account) + 1];
    forall other
      ensures CountOf(counts', other) == CountOf(base, other) + |Holders(fns, codes[a := code], other)|
    {
      HoldersAdd(fns, codes, a, code, other);
      assert CountOf(counts, other) == CountOf(base, other) + |Holders(fns, codes, other)|;
    }
  }

  lemma CountedRemove(fns: Functions, codes: map<Hash, Code>, base: map<Hash, nat>, counts: map<Hash, nat>, a: Hash)
    requires Counted(fns, codes, base, counts)
    ensures var account := fns.accountOf(a);
            && (a in codes ==> CountOf(counts, account) > 0)
            && Counted(fns, codes - {a}, base,
                       if a in codes then counts[account := SaturatingSub(CountOf(counts, account), 1)] else counts)
  {
    var account := fns.accountOf(a);
    var counts' := if a in codes then counts[account := SaturatingSub(CountOf(counts, account), 1)] else counts;
    if a in codes {
      assert a in Holders(fns, codes, account);
      assert CountOf(counts, account) == CountOf(base, account) + |Holders(fns, codes, account)|;
    }
    forall other
      ensures CountOf(counts', other) == CountOf(base, other) + |Holders(fns, codes - {a}, other)|
    {
      HoldersRemove(fns, codes, a, other);
      assert CountOf(counts, other) == CountOf(base, other) + |Holders(fns, codes, other)|;
    }
  }

  /** With an injective address mapping, a count exceeds its base by one exactly when the address has code. */
  lemma CountedOnce(fns: Functions, codes: map<Hash, Code>, base: map<Hash, nat>, counts: map<Hash, nat>, a: Hash)
    requires Counted(fns, codes, base, counts) && Injective(fns)
    ensures CountOf(counts, fns.accountOf(a)) == CountOf(base, fns.accountOf(a)) + if a in codes then 1 else 0
  {
    var holders := Holders(fns, codes, fns.accountOf(a));
    assert holders == if a in codes then {a} else {};
  }

  class Pallet {
    const fns: Functions
    var codes: map<Hash, Code>
    var metadata: map<Hash, CodeMetadata>
    var sufficients: map<Hash, nat>
    /** The storage cells of each address. */
    var storages: map<Hash, map<Hash, Hash>>
    /** The counts that other pallets hold. */
    ghost const base: map<Hash, nat>

    ghost predicate Valid()
      reads this
    {
      CacheAgrees(fns, codes, metadata) && Counted(fns, codes, base, sufficients)
    }

    constructor (fns: Functions, sufficients: map<Hash, nat>)
      ensures Valid() && codes == map[] && metadata == map[] && storages == map[]
      ensures this.fns == fns && base == sufficients
    {
      this.fns, codes, metadata, storages, this.sufficients := fns, map[], map[], map[], sufficients;
      base := sufficients;
      new;
      assert forall account :: Holders(this.fns, codes, account) == {};
    }

    /** `create_account`, `allowed` being the verdict of the origin filter when there is a caller. */
    method CreateAccount(address: Hash, code: Code, caller: Option<Hash>, allowed: bool) returns (ok: bool)
      requires Valid()
      modifies this
      ensures Valid()
      ensures ok <==> caller.None? || allowed
      ensures codes == if ok && code != [] then old(codes)[address := code] else old(codes)
      ensures metadata ==
              if ok && code != [] then old(metadata)[address := CodeMetadata(|code|, fns.keccak(code))]
              else old(metadata)
      ensures storages == old(storages)
    {
      if caller.Some? && !allowed {
        return false;
      }
      if code == [] {
        return true;
      }
      CountedAdd(fns, codes, base, sufficients, address, code);
      if address !in codes {
        var account := fns.accountOf(address);
        sufficients := sufficients[account := CountOf(sufficients, account) + 1];
      }
      metadata := metadata[address := FromCode(fns, code)];
      codes := codes[address := code];
      return true;
    }

    /** `remove_account` */
    method RemoveAccount(address: Hash)
      requires Valid()
      modifies this
      ensures Valid()
      ensures codes == old(codes) - {address} && metadata == old(metadata) - {address}
      ensures storages == old(storages) - {address}
    {
      CountedRemove(fns, codes, base, sufficients, address);
      if address in codes {
        var account := fns.accountOf(address);
        sufficients := sufficients[account := SaturatingSub(CountOf(sufficients, account), 1)];
      }
      codes := codes - {address};
      metadata := metadata - {address};
      storages := storages - {address};
    }

    /** `remove_account_if_empty`, for an account with this nonce and balance. */
    method RemoveAccountIfEmpty(address: Hash, nonce: nat, balance: nat)
      requires Valid()
      modifies this
      ensures Valid()
      ensures codes == old(codes) && metadata == old(metadata)
      ensures storages ==
              if nonce == 0 && balance == 0 && address !in codes then old(storages) - {address} else old(storages)
    {
      var codeLength := if address in codes then |codes[address]| else 0;
      if nonce == 0 && balance == 0 && codeLength == 0 {
        RemoveAccount(address);
        assert codes == old(codes) && metadata == old(metadata);
      }
    }

    /** `account_code_metadata`: answers for the stored code, cached or not, and caches it if there is any. */
    method AccountCodeMetadata(address: Hash) returns (meta: CodeMetadata)
      requires Valid()
      modifies this`metadata
      ensures Valid()
      ensures meta == if address in codes then CodeMetadata(|codes[address]|, fns.keccak(codes[address]))
                      else CodeMetadata(0, fns.emptyCodeHash)
      ensures metadata == if address in codes then old(metadata)[address := meta] else old(metadata)
    {
      if address in metadata {
        assert metadata[address := metadata[address]] == metadata;
        return metadata[address];
      }
      var code := if address in codes then codes[address] else [];
      if code == [] {
        return CodeMetadata(0, fns.emptyCodeHash);
      }
      meta := FromCode(fns, code);
      metadata := metadata[address := meta];
    }
  }
}
