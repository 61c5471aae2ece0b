/** Rule tables: exact hosts in a hash map, blocks in a longest-prefix trie. */
module Rules {
  import opened Bits
  import opened Cidr
  import opened IpIndex
  import opened Lists
  import opened Outcomes
  import opened Targets

  datatype Action = Drop | Accept

  datatype Rule = Rule(id: nat, action: Action)

  /**
   * The four kernel maps: the two hash maps keyed by address and the two tries keyed by
   * prefix and address, with the family part of the key.
   */
  datatype Tables = Tables(exact: map<Ip, Rule>, trie: map<Target, Rule>)

  /** `ParsedRuleSet`: the rules on their way to the maps. */
  datatype RuleSet = RuleSet(exact: map<Ip, Rule>, blocks: seq<(Target, Rule)>)

  /** The rules as the kernel maps hold them: blocks are inserted in order. */
  function TablesOf(rules: RuleSet): Tables {
    Tables(rules.exact, PutAll(map[], rules.blocks))
  }

  predicate Blocks(trie: map<Target, Rule>) {
    forall k <- trie :: k.Cidr? && k.Canonical()
  }

  /** What loader and rule preparation produce: full-length prefixes go to the hash map. */
  predicate Routed(t: Tables) {
    && (forall ip <- t.exact :: ip.Valid())
    && Blocks(t.trie) && (forall k <- t.trie :: k.prefix < k.family.Width())
  }

  // ----- lookup ------------------------------------------------------------------------

  /** Longest-prefix match (section 5.1 of RFC 4632) over one table of blocks. */
  ghost predicate LongestMatch(trie: map<Target, Rule>, ip: Ip, r: Option<Rule>) {
    match r
    case None => forall k <- trie :: !k.Denotes(ip)
    case Some(rule) =>
      exists k :: k in trie && k.Denotes(ip) && trie[k] == rule
                  && forall l <- trie :: l.Denotes(ip) ==> l.AsNet().prefix <= k.AsNet().prefix
  }

  /** Canonical blocks of one length are disjoint, so there is only one longest match. */
  lemma LongestMatchUnique(trie: map<Target, Rule>, ip: Ip, a: Option<Rule>, b: Option<Rule>)
    requires Blocks(trie) && ip.Valid() && LongestMatch(trie, ip, a) && LongestMatch(trie, ip, b)
    ensures a == b
  {
    if a.Some? && b.Some? {
      var k :| k in trie && k.Denotes(ip) && trie[k] == a.value
               && forall l <- trie :: l.Denotes(ip) ==> l.AsNet().prefix <= k.AsNet().prefix;
      var m :| m in trie && m.Denotes(ip) && trie[m] == b.value
               && forall l <- trie :: l.Denotes(ip) ==> l.AsNet().prefix <= m.AsNet().prefix;
      DenotesByOctets(k, ip);
      DenotesByOctets(m, ip);
    }
  }

  function BlockAt(ip: Ip, prefix: nat): Target
    requires ip.Valid() && prefix <= ip.family.Width()
  {
    Cidr(ip.family, prefix, NetworkOctets(prefix, ip.octets))
  }

  /** The trie's answer for the prefix lengths up to `prefix`. */
  function TrieGet(trie: map<Target, Rule>, ip: Ip, prefix: nat): Option<Rule>
    requires ip.Valid() && prefix <= ip.family.Width()
  {
    var k := BlockAt(ip, prefix);
    if k in trie then Some(trie[k])
    else if prefix == 0 then None
    else TrieGet(trie, ip, prefix - 1)
  }

  lemma {:induction false} TrieGetIsLongest(trie: map<Target, Rule>, ip: Ip, prefix: nat)
    requires Blocks(trie) && ip.Valid() && prefix <= ip.family.Width()
    requires forall k <- trie :: k.Denotes(ip) ==> k.prefix <= prefix
    ensures LongestMatch(trie, ip, TrieGet(trie, ip, prefix))
  {
    var b := BlockAt(ip, prefix);
    forall k | k in trie && k.family == ip.family
      ensures k.Denotes(ip) && k.prefix == prefix <==> k == b
    {
      DenotesByOctets(k, ip);
      if k == b { assert k.Denotes(ip); }
    }
    if b !in trie && prefix > 0 {
      TrieGetIsLongest(trie, ip, prefix - 1);
    }
  }

  /** What one packet matches: the exact map first, then the trie. */
  function Lookup(t: Tables, ip: Ip): Option<Rule>
    requires ip.Valid()
  {
    if ip in t.exact then Some(t.exact[ip]) else TrieGet(t.trie, ip, ip.family.Width())
  }

  function HostBlock(ip: Ip): Target { Cidr(ip.family, ip.family.Width(), ip.octets) }

  /** One table with the exact hosts as full-length prefixes. */
  function Merged(t: Tables): map<Target, Rule> {
    t.trie + map ip | ip in t.exact :: HostBlock(ip) := t.exact[ip]
  }

  lemma HostBlockIsHost(host: Ip, ip: Ip)
    requires host.Valid() && ip.Valid()
    ensures HostBlock(host).Canonical() && (HostBlock(host).Denotes(ip) <==> host == ip)
  {
    ExactIsCanonical(Exact(host.family, host.octets));
  }

  /** Exact map then trie gives what one longest-prefix match over a single table gives. */
  lemma TwoTierIsLongestMatch(t: Tables, ip: Ip)
    requires Routed(t) && ip.Valid()
    ensures Blocks(Merged(t)) && LongestMatch(Merged(t), ip, Lookup(t, ip))
  {
    forall host | host in t.exact
      ensures HostBlock(host).Canonical() && (HostBlock(host).Denotes(ip) <==> host == ip)
    {
      HostBlockIsHost(host, ip);
    }
    var h := HostBlock(ip);
    if ip in t.exact {
      assert Merged(t)[h] == t.exact[ip];
    } else {
      TrieGetIsLongest(t.trie, ip, ip.family.Width());
      assert forall k <- t.trie :: k in Merged(t) && Merged(t)[k] == t.trie[k];
    }
  }

  ghost predicate Covered(t: Tables, ip: Ip) {
    ip in t.exact || exists k :: k in t.trie && k.Denotes(ip)
  }

  predicate AllDrop(t: Tables) {
    (forall ip <- t.exact :: t.exact[ip].action == Drop) && (forall k <- t.trie :: t.trie[k].action == Drop)
  }

  predicate Drops(r: Option<Rule>) { r.Some? && r.value.action == Drop }

  /** With drop rules only, a lookup says drop exactly when some rule covers the address. */
  lemma DropIffCovered(t: Tables, ip: Ip)
    requires Routed(t) && AllDrop(t) && ip.Valid()
    ensures Drops(Lookup(t, ip)) <==> Covered(t, ip)
  {
    TrieGetIsLongest(t.trie, ip, ip.family.Width());
  }
}
