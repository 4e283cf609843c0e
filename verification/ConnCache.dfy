/** The connection cache of lib/conncache.c and its bundles (lib/bundles.c), kept
    in a hash table from host names to bundles. Whether an allocation succeeds
    is an input of the operation that makes it. */
module ConnCache {
  import opened CText
  import opened HashTable

  datatype CurlCode = Ok | OutOfMemory

  /** struct connectdata, as far as the cache uses it. */
  class Conn {
    const hostName: string
    var bundle: Bundle?

    constructor (hostName: string)
      ensures this.hostName == hostName && bundle == null
    {
      this.hostName, this.bundle := hostName, null;
    }
  }

  /** struct connectbundle */
  class Bundle {
    var connList: seq<Conn>
    var numConnections: int

    /** Curl_bundle_create() */
    constructor ()
      ensures connList == [] && numConnections == 0
    {
      connList, numConnections := [], 0;
    }

    /** Curl_bundle_add_conn() */
    method AddConn(conn: Conn, memory: bool) returns (result: CurlCode)
      modifies this, conn
      ensures result == if memory then Ok else OutOfMemory
      ensures !memory ==> unchanged(this) && unchanged(conn)
      ensures memory ==> connList == old(connList) + [conn] && conn.bundle == this
      ensures memory ==> numConnections == old(numConnections) + 1
    {
      if !memory {
        return OutOfMemory;
      }
      connList := connList + [conn];
      conn.bundle := this;
      numConnections := numConnections + 1;
      result := Ok;
    }

    /** Curl_bundle_remove_conn(): 1 when the connection was in the bundle. */
    method RemoveConn(conn: Conn) returns (removed: int, ghost at: nat)
      modifies this, conn
      ensures removed == if Has(old(connList), conn) then 1 else 0
      ensures removed == 0 ==> unchanged(this) && unchanged(conn)
      ensures removed == 1 ==> conn.bundle == null && numConnections == old(numConnections) - 1
      ensures removed == 1 ==> at < |old(connList)| && old(connList)[at] == conn && connList == Without(old(connList), at)
    {
      var i := 0;
      while i < |connList|
        invariant 0 <= i <= |connList| && forall j :: 0 <= j < i ==> connList[j] != conn
        invariant unchanged(this) && unchanged(conn)
      {
        if connList[i] == conn {
          connList := Without(connList, i);
          numConnections := numConnections - 1;
          conn.bundle := null;
          return 1, i;
        }
        i := i + 1;
      }
      removed, at := 0, 0;
    }
  }

  lemma HasAppended<T>(s: seq<T>, x: T, y: T)
    ensures Has(s + [x], y) <==> Has(s, y) || x == y
  {
    if Has(s, y) {
      var i :| 0 <= i < |s| && s[i] == y;
      assert (s + [x])[i] == y;
    }
    assert (s + [x])[|s|] == x;
  }

  ghost predicate Distinct<T>(s: seq<T>) {
    forall i, j :: 0 <= i < j < |s| ==> s[i] != s[j]
  }

  function ToSet<T>(s: seq<T>): set<T> {
    set i | 0 <= i < |s| :: s[i]
  }

  lemma {:induction false} DistinctCount<T>(s: seq<T>)
    requires Distinct(s)
    ensures |ToSet(s)| == |s|
  {
    if s != [] {
      DistinctCount(s[1..]);
      assert ToSet(s) == {s[0]} + ToSet(s[1..]) by {
        forall i | 0 <= i < |s| ensures s[i] in {s[0]} + ToSet(s[1..]) {
          assert i > 0 ==> s[1..][i - 1] == s[i];
        }
      }
    }
  }

  /** A bundle is not empty, counts its connections, holds each once, and each
      points back to it and is for its host. */
  ghost predicate BundleOk(b: Bundle, name: string, conns: set<Conn>)
    reads b, conns
  {
    && b.connList != [] && b.numConnections == |b.connList| && Distinct(b.connList)
    && forall i :: 0 <= i < |b.connList| ==> b.connList[i] in conns && b.connList[i].bundle == b && b.connList[i].hostName == name
  }

  /** The bundles of these hosts hold exactly these connections. */
  ghost predicate HostsOk(hosts: map<string, Bundle>, bundles: set<Bundle>, conns: set<Conn>)
    reads bundles, conns
  {
    && (forall name :: name in hosts ==> hosts[name] in bundles && BundleOk(hosts[name], name, conns))
    && (forall c :: c in conns ==> c.hostName in hosts && Has(hosts[c.hostName].connList, c))
  }

  /** A bundle belongs to one host, since it is not empty. */
  lemma BundleHasOneHost(hosts: map<string, Bundle>, bundles: set<Bundle>, conns: set<Conn>, name: string)
    requires HostsOk(hosts, bundles, conns) && name in hosts
    ensures forall k :: k in hosts && hosts[k] == hosts[name] ==> k == name
  {
    forall k | k in hosts && hosts[k] == hosts[name]
      ensures k == name
    {
      assert BundleOk(hosts[k], k, conns) && BundleOk(hosts[name], name, conns);
      assert hosts[k].connList[0].hostName == k;
    }
  }

  /** struct conncache */
  class ConnCache {
    const hash: CurlHash<string, Bundle>
    var numConnections: int
    /** Every connection in the cache. */
    ghost var conns: set<Conn>
    /** Every bundle made for the cache. */
    ghost var bundles: set<Bundle>

    ghost predicate Valid()
      reads this, hash, hash.table, bundles, conns
    {
      hash.Valid() && HostsOk(hash.contents, bundles, conns) && numConnections == |conns|
    }

    /** Curl_conncache_init() */
    constructor (size: nat, hashFunc: string -> nat)
      requires size > 0 && forall k :: hashFunc(k) < size
      ensures Valid() && conns == {} && bundles == {} && hash.contents == map[]
      ensures fresh(hash) && fresh(hash.table)
    {
      hash := new CurlHash(size, hashFunc);
      numConnections := 0;
      conns, bundles := {}, {};
    }

    /** Curl_conncache_find_bundle() */
    method FindBundle(name: string) returns (bundle: Bundle?)
      requires hash.Valid()
      ensures bundle == if name in hash.contents then hash.contents[name] else null
    {
      var found := hash.Pick(name);
      bundle := if found.Some? then found.value else null;
    }

    /** conncache_remove_bundle() on a bundle without connections: a mapping to it
        goes, if there is one. */
    method RemoveBundle(bundle: Bundle) returns (ghost name: Option<string>)
      requires hash.Valid() && bundle.connList == []
      modifies hash, hash.table
      ensures hash.Valid()
      ensures name.None? ==> hash.contents == old(hash.contents) && hash.table[..] == old(hash.table[..])
      ensures name.None? ==> forall k :: k in hash.contents ==> hash.contents[k] != bundle
      ensures name.Some? ==>
              && name.value in old(hash.contents) && old(hash.contents)[name.value] == bundle
              && hash.contents == old(hash.contents) - {name.value}
              && hash.table[..] == var h := hash.hash(name.value); old(hash.table[..])[h := Pruned(old(hash.table[h]), name.value)]
    {
      var key := KeyOf(bundle);
      name := key;
      if key.Some? {
        var rc := hash.Delete(key.value);
      }
    }

    /** The search loop of conncache_remove_bundle(). */
    method KeyOf(bundle: Bundle) returns (key: Option<string>)
      requires hash.Valid()
      ensures key.Some? ==> key.value in hash.contents && hash.contents[key.value] == bundle
      ensures key.None? ==> forall k :: k in hash.contents ==> hash.contents[k] != bundle
    {
      hash.FlatIsContents();
      ghost var all := Flat(hash.table[..]);
      var iter := new HashIterator(hash);
      key := Search(iter, bundle, all);
      if key.None? {
        forall k | k in hash.contents ensures hash.contents[k] != bundle {
          assert Has(all, Element(k, hash.contents[k]));
        }
      }
    }

    method Search(iter: HashIterator<string, Bundle>, bundle: Bundle, ghost all: seq<Element<string, Bundle>>)
      returns (key: Option<string>)
      requires iter.Valid() && iter.Rest() == all
      modifies iter
      ensures key.Some? ==> exists i :: 0 <= i < |all| && all[i] == Element(key.value, bundle)
      ensures key.None? ==> forall i :: 0 <= i < |all| ==> all[i].ptr != bundle
    {
      var he := iter.Next();
      ghost var seen := 0;
      while he.Some?
        invariant iter.Valid()
        invariant seen <= |all| && forall i :: 0 <= i < seen ==> all[i].ptr != bundle
        invariant if he.Some? then seen < |all| && he.value == all[seen] && iter.Rest() == all[seen + 1..]
                  else seen == |all|
        decreases |all| - seen
      {
        if he.value.ptr == bundle {
          return Some(he.value.key);
        }
        seen := seen + 1;
        he := iter.Next();
      }
      key := None;
    }

    /** The bundle for a host, made and entered when there is none yet; null when
        memory runs out on the way. */
    method FindOrCreate(name: string, createMemory: bool, hashMemory: bool) returns (bundle: Bundle?, isNew: bool)
      requires hash.Valid()
      modifies hash, hash.table
      ensures hash.Valid()
      ensures bundle == null <==> name !in old(hash.contents) && !(createMemory && hashMemory)
      ensures isNew <==> name !in old(hash.contents) && bundle != null
      ensures !isNew ==> hash.contents == old(hash.contents) && hash.table[..] == old(hash.table[..])
      ensures bundle != null ==> hash.contents == old(hash.contents)[name := bundle]
      ensures isNew ==> fresh(bundle) && bundle.connList == [] && bundle.numConnections == 0
      ensures isNew ==> hash.table[..] == old(hash.table[..])[hash.hash(name) := old(hash.table[hash.hash(name)]) + [Element(name, bundle)]]
    {
      assert hash.MapsLike(name);
      bundle := FindBundle(name);
      isNew := false;
      if bundle == null {
        PrunedNothing(hash.table[hash.hash(name)], name);
        if createMemory {
          var newBundle := new Bundle();
          var added := hash.Add(name, newBundle, hashMemory);
          if added {
            bundle, isNew := newBundle, true;
          } else {
            assert hash.table[..] == old(hash.table[..]);
          }
        }
      }
    }

    /** Taking a bundle just entered out again restores the table. */
    method Rollback(bundle: Bundle, ghost name: string, ghost hosts: map<string, Bundle>, ghost lists: seq<seq<Element<string, Bundle>>>)
      requires hash.Valid() && hash.contents == hosts[name := bundle]
      requires name !in hosts && (forall k :: k in hosts ==> hosts[k] != bundle) && bundle.connList == []
      requires |lists| == hash.slots && Lookup(lists[hash.hash(name)], name).None?
      requires hash.table[..] == lists[hash.hash(name) := lists[hash.hash(name)] + [Element(name, bundle)]]
      modifies hash, hash.table
      ensures hash.Valid() && hash.contents == hosts && hash.table[..] == lists
    {
      ghost var gone := RemoveBundle(bundle);
      assert name in old(hash.contents) && gone == Some(name);
      PrunedAppended(lists[hash.hash(name)], Element(name, bundle));
    }

    /** Curl_conncache_add_conn() on the cache the connection's handle uses: only
        a complete success changes anything. */
    method AddConn(conn: Conn, createMemory: bool, hashMemory: bool, listMemory: bool) returns (result: CurlCode)
      requires Valid() && conn !in conns && conn.bundle == null
      modifies this, hash, hash.table, bundles, conn
      ensures Valid() && fresh(bundles - old(bundles))
      ensures result.Ok? <==> listMemory && (conn.hostName in old(hash.contents) || (createMemory && hashMemory))
      ensures result.OutOfMemory? ==>
              && hash.table[..] == old(hash.table[..]) && hash.contents == old(hash.contents)
              && unchanged(this) && unchanged(conn) && unchanged(bundles)
      ensures result.Ok? ==>
              && conns == old(conns) + {conn} && numConnections == old(numConnections) + 1
              && conn.bundle != null && hash.contents == old(hash.contents)[conn.hostName := conn.bundle]
    {
      var name := conn.hostName;
      ghost var hosts := hash.contents;
      assert hash.MapsLike(name);
      var bundle, isNew := FindOrCreate(name, createMemory, hashMemory);
      if bundle == null {
        result := OutOfMemory;
      } else {
        result := AddTo(bundle, isNew, conn, listMemory, hosts, old(hash.table[..]));
      }
    }

    /** The second half of Curl_conncache_add_conn(): a bundle entered for this
        connection alone goes again when the connection cannot join it. */
    method AddTo(bundle: Bundle, isNew: bool, conn: Conn, memory: bool,
                 ghost hosts: map<string, Bundle>, ghost lists: seq<seq<Element<string, Bundle>>>)
      returns (result: CurlCode)
      requires hash.Valid() && HostsOk(hosts, bundles, conns) && conn !in conns && conn.bundle == null
      requires numConnections == |conns|
      requires hash.contents == hosts[conn.hostName := bundle] && |lists| == hash.slots
      requires isNew <==> conn.hostName !in hosts
      requires isNew ==> bundle !in bundles && bundle.connList == [] && bundle.numConnections == 0
      requires isNew ==> Lookup(lists[hash.hash(conn.hostName)], conn.hostName).None?
      requires isNew ==> hash.table[..] == var h := hash.hash(conn.hostName); lists[h := lists[h] + [Element(conn.hostName, bundle)]]
      requires !isNew ==> hosts[conn.hostName] == bundle && hash.table[..] == lists
      modifies this`numConnections, this`conns, this`bundles, hash, hash.table, bundle, conn
      ensures hash.Valid() && HostsOk(hash.contents, bundles, conns) && numConnections == |conns|
      ensures result == if memory then Ok else OutOfMemory
      ensures result.OutOfMemory? ==> hash.contents == hosts && hash.table[..] == lists
      ensures result.OutOfMemory? ==> unchanged(this) && unchanged(conn) && unchanged(bundle)
      ensures result.Ok? ==> hash.contents == hosts[conn.hostName := bundle] && conn.bundle == bundle
      ensures result.Ok? ==> conns == old(conns) + {conn} && bundles == old(bundles) + {bundle}
      ensures result.Ok? ==> numConnections == old(numConnections) + 1
    {
      result := Join(bundle, conn, memory, hosts);
      ghost var now := if result.Ok? then hosts[conn.hostName := bundle] else hosts;
      assert hash.Valid() && HostsOk(now, bundles, conns);
      if result.OutOfMemory? && isNew {
        Rollback(bundle, conn.hostName, hosts, lists);
      }
      assert hash.contents == now;
    }

    /** The last steps of Curl_conncache_add_conn(): the connection joins the
        bundle of its host and is counted. */
    method Join(bundle: Bundle, conn: Conn, memory: bool, ghost hosts: map<string, Bundle>) returns (result: CurlCode)
      requires HostsOk(hosts, bundles, conns) && conn !in conns && conn.bundle == null && numConnections == |conns|
      requires conn.hostName in hosts ==> hosts[conn.hostName] == bundle
      requires conn.hostName !in hosts ==> bundle !in bundles && bundle.connList == [] && bundle.numConnections == 0
      modifies this`numConnections, this`conns, this`bundles, bundle, conn
      ensures numConnections == |conns| && result == if memory then Ok else OutOfMemory
      ensures result.OutOfMemory? ==> unchanged(this) && unchanged(conn) && unchanged(bundle) && HostsOk(hosts, bundles, conns)
      ensures result.Ok? ==> HostsOk(hosts[conn.hostName := bundle], bundles, conns) && conn.bundle == bundle
      ensures result.Ok? ==> conns == old(conns) + {conn} && bundles == old(bundles) + {bundle}
      ensures result.Ok? ==> numConnections == old(numConnections) + 1
    {
      result := Attach(bundle, conn, memory, hosts);
      if result.Ok? {
        ghost var made, members := bundles + {bundle}, conns + {conn};
        ghost var now := hosts[conn.hostName := bundle];
        Count(conn, bundle);
        assert HostsOk(now, made, members);
      }
    }

    /** Curl_bundle_add_conn() keeps the bundles as they should be. */
    method Attach(bundle: Bundle, conn: Conn, memory: bool, ghost hosts: map<string, Bundle>) returns (result: CurlCode)
      requires HostsOk(hosts, bundles, conns) && conn !in conns && conn.bundle == null
      requires conn.hostName in hosts ==> hosts[conn.hostName] == bundle
      requires conn.hostName !in hosts ==> bundle !in bundles && bundle.connList == [] && bundle.numConnections == 0
      modifies bundle, conn
      ensures result == if memory then Ok else OutOfMemory
      ensures result.OutOfMemory? ==> unchanged(conn) && unchanged(bundle) && HostsOk(hosts, bundles, conns)
      ensures result.Ok? ==> HostsOk(hosts[conn.hostName := bundle], bundles + {bundle}, conns + {conn}) && conn.bundle == bundle
    {
      ghost var was := bundle.connList;
      if conn.hostName in hosts {
        assert BundleOk(bundle, conn.hostName, conns);
        BundleHasOneHost(hosts, bundles, conns, conn.hostName);
      }
      result := bundle.AddConn(conn, memory);
      if result.Ok? {
        ghost var now := hosts[conn.hostName := bundle];
        forall k | k in now ensures BundleOk(now[k], k, conns + {conn}) {
          if k in hosts {
            assert old(BundleOk(hosts[k], k, conns));
          }
        }
        forall c | c in conns + {conn} ensures c.hostName in now && Has(now[c.hostName].connList, c) {
          HasAppended(was, conn, c);
        }
      }
    }

    method Count(conn: Conn, ghost bundle: Bundle)
      requires conn !in conns && numConnections == |conns|
      modifies this`numConnections, this`conns, this`bundles
      ensures conns == old(conns) + {conn} && bundles == old(bundles) + {bundle}
      ensures numConnections == old(numConnections) + 1 == |conns|
    {
      numConnections := numConnections + 1;
      conns, bundles := conns + {conn}, bundles + {bundle};
    }

    /** Curl_conncache_remove_conn(): a connection that never got a bundle is
        ignored; the last one of a host takes its bundle along. */
    method RemoveConn(conn: Conn)
      requires Valid() && (conn.bundle != null ==> conn in conns)
      modifies this, hash, hash.table, bundles, conn
      ensures Valid() && bundles == old(bundles) && conn.bundle == null
      ensures old(conn.bundle) == null ==>
              && unchanged(this) && unchanged(hash) && unchanged(hash.table) && unchanged(bundles)
      ensures old(conn.bundle) != null ==>
              && conns == old(conns) - {conn} && numConnections == old(numConnections) - 1
              && hash.contents == if |old(conn.bundle.connList)| == 1 then old(hash.contents) - {conn.hostName} else old(hash.contents)
    {
      var bundle := conn.bundle;
      if bundle != null {
        Drop(bundle, conn);
        numConnections := numConnections - 1;
        conns := conns - {conn};
      }
    }

    /** Its first two steps: out of the bundle, and an empty bundle out of the table. */
    method Drop(bundle: Bundle, conn: Conn)
      requires hash.Valid() && HostsOk(hash.contents, bundles, conns) && conn in conns && conn.bundle == bundle
      modifies hash, hash.table, bundle, conn
      ensures hash.Valid() && HostsOk(hash.contents, bundles, conns - {conn}) && conn.bundle == null
      ensures hash.contents == if |old(bundle.connList)| == 1 then old(hash.contents) - {conn.hostName} else old(hash.contents)
    {
      Leave(bundle, conn);
      if bundle.numConnections == 0 {
        ghost var gone := RemoveBundle(bundle);
        assert gone == Some(conn.hostName);
      }
    }

    /** The first step of the removal. */
    method Leave(bundle: Bundle, conn: Conn)
      requires HostsOk(hash.contents, bundles, conns) && conn in conns && conn.bundle == bundle
      modifies bundle, conn
      ensures var hosts, left := hash.contents, conns - {conn};
              HostsOk(if bundle.connList == [] then hosts - {conn.hostName} else hosts, bundles, left)
      ensures conn.hostName in hash.contents && hash.contents[conn.hostName] == bundle && conn.bundle == null
      ensures forall k :: k in hash.contents && hash.contents[k] == bundle ==> k == conn.hostName
      ensures bundle.numConnections == |bundle.connList| == |old(bundle.connList)| - 1
    {
      var name := conn.hostName;
      assert BundleOk(hash.contents[name], name, conns);
      BundleHasOneHost(hash.contents, bundles, conns, name);
      var removed, at := bundle.RemoveConn(conn);
      ghost var was, list := old(bundle.connList), bundle.connList;
      assert forall i :: 0 <= i < |list| ==> list[i] == was[if i < at then i else i + 1];
      forall k | k in hash.contents && (k != name || list != []) ensures BundleOk(hash.contents[k], k, conns - {conn}) {
        assert old(BundleOk(hash.contents[k], k, conns));
      }
      forall c | c in conns - {conn} ensures c.hostName in hash.contents && Has(hash.contents[c.hostName].connList, c) {
        if c.hostName == name {
          var i :| 0 <= i < |was| && was[i] == c;
          assert list[if i < at then i else i - 1] == c;
        }
      }
    }

    /** Curl_conncache_find_first_connection(): none only when the cache is empty. */
    method FindFirstConnection() returns (conn: Conn?)
      requires Valid()
      ensures conn == null <==> conns == {}
      ensures conn != null ==> conn in conns
    {
      hash.FlatIsContents();
      ghost var all := Flat(hash.table[..]);
      var iter := new HashIterator(hash);
      if conns != {} {
        ghost var c :| c in conns;
        ghost var b := hash.contents[c.hostName];
        assert Has(b.connList, c) && Has(all, Element(c.hostName, b));
      }
      conn := FirstHead(iter, all);
      if conn != null {
        ghost var i :| 0 <= i < |all| && all[i].ptr.connList != [] && all[i].ptr.connList[0] == conn;
        assert BundleOk(all[i].ptr, all[i].key, conns);
      }
    }

    /** The loop of Curl_conncache_find_first_connection(). */
    method FirstHead(iter: HashIterator<string, Bundle>, ghost all: seq<Element<string, Bundle>>) returns (conn: Conn?)
      requires iter.Valid() && iter.Rest() == all
      modifies iter
      ensures conn == null ==> forall i :: 0 <= i < |all| ==> all[i].ptr.connList == []
      ensures conn != null ==> exists i :: 0 <= i < |all| && all[i].ptr.connList != [] && all[i].ptr.connList[0] == conn
    {
      var he := iter.Next();
      ghost var seen := 0;
      while he.Some?
        invariant iter.Valid()
        invariant seen <= |all| && forall i :: 0 <= i < seen ==> all[i].ptr.connList == []
        invariant if he.Some? then seen < |all| && he.value == all[seen] && iter.Rest() == all[seen + 1..]
                  else seen == |all|
        decreases |all| - seen
      {
        if he.value.ptr.connList != [] {
          return he.value.ptr.connList[0];
        }
        seen := seen + 1;
        he := iter.Next();
      }
      conn := null;
    }

    /** The counts of the bundles of these elements, added up. */
    ghost function Sum(all: seq<Element<string, Bundle>>): int
      reads set i | 0 <= i < |all| :: all[i].ptr
    {
      if all == [] then 0 else all[0].ptr.numConnections + Sum(all[1..])
    }

    /** num_connections is the sum of the counts of the bundles in the table. */
    lemma CountsAddUp()
      requires Valid()
      ensures Sum(Flat(hash.table[..])) == numConnections
    {
      hash.FlatIsContents();
      var all := Flat(hash.table[..]);
      SumIsCount(all, conns);
    }

    /** A bundle counts the connections of its host. */
    lemma CountOfHost(name: string, here: set<Conn>)
      requires HostsOk(hash.contents, bundles, conns) && name in hash.contents
      requires forall c :: c in here <==> c in conns && c.hostName == name
      ensures hash.contents[name].numConnections == |here|
    {
      var list := hash.contents[name].connList;
      assert BundleOk(hash.contents[name], name, conns);
      assert here == ToSet(list) by {
        forall c | c in here ensures c in ToSet(list) {
          assert Has(list, c);
        }
      }
      DistinctCount(list);
    }

    lemma {:induction false} SumIsCount(all: seq<Element<string, Bundle>>, some: set<Conn>)
      requires HostsOk(hash.contents, bundles, conns) && DistinctKeys(all)
      requires forall i :: 0 <= i < |all| ==> all[i].key in hash.contents && hash.contents[all[i].key] == all[i].ptr
      requires forall c :: c in some <==> c in conns && exists i :: 0 <= i < |all| && all[i].key == c.hostName
      ensures Sum(all) == |some|
      decreases |all|
    {
      if all == [] {
        assert some == {};
      } else {
        var b, name := all[0].ptr, all[0].key;
        assert BundleOk(b, name, conns);
        var here := set c | c in some && c.hostName == name;
        assert forall c :: c in conns && all[0].key == c.hostName ==> c in some;
        CountOfHost(name, here);
        var rest := some - here;
        forall c | c in rest ensures exists i :: 0 <= i < |all[1..]| && all[1..][i].key == c.hostName {
          var i :| 0 <= i < |all| && all[i].key == c.hostName;
          assert all[1..][i - 1].key == c.hostName;
        }
        SumIsCount(all[1..], rest);
        assert some == here + rest;
      }
    }
  }

  lemma PrunedNothing<K, V>(list: seq<Element<K, V>>, key: K)
    ensures Lookup(list, key).None? ==> Pruned(list, key) == list
  {
    if Lookup(list, key).None? {
      PrunedAt(list, key, |list|);
    }
  }
}
