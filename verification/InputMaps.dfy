/**
  The map from input encodings to keys: a trie whose nodes hold up to eight children in a sorted table and more in an
  array of 256. `Lookup` is what a finite map would answer; the class is proved to answer the same.
 */
module InputMaps {
  import opened Basics
  import opened KeyBindings

  // ---------- Nodes ----------

  const TINY_COUNT := 8

  /** A table of up to eight children in byte order, or the number of a branch. */
  datatype Children = Tiny(values: seq<Byte>, nodes: seq<nat>) | Branch(branch: nat)

  /** Nodes are numbered; 0 is the root, which is nobody's child, and so also means no node. */
  datatype Node = Node(key: Key, childCount: nat, children: Children)

  const NO_NODE: nat := 0

  const EMPTY_NODE := Node(KEY_ZERO, 0, Tiny([0, 0, 0, 0, 0, 0, 0, 0], [0, 0, 0, 0, 0, 0, 0, 0]))

  ghost predicate TinyOk(values: seq<Byte>, nodes: seq<nat>, count: nat) {
    && |values| == |nodes| == TINY_COUNT && count <= TINY_COUNT
    && (forall i, j :: 0 <= i < j < count ==> values[i] < values[j])
    && (forall i :: 0 <= i < count ==> nodes[i] != NO_NODE)
  }

  ghost predicate NodeOk(node: Node, branches: seq<seq<nat>>) {
    if node.childCount <= TINY_COUNT then
      node.children.Tiny? && TinyOk(node.children.values, node.children.nodes, node.childCount)
    else
      && node.children.Branch? && node.children.branch < |branches| && |branches[node.children.branch]| == 256
      && exists c: Byte :: branches[node.children.branch][c] != NO_NODE
  }

  /** The child for `ch` among the table's entries from `i` on. */
  function TinyChild(values: seq<Byte>, nodes: seq<nat>, i: nat, count: nat, ch: Byte): nat
    requires i <= count <= |values| == |nodes|
    decreases count - i
  {
    if i == count then NO_NODE else if values[i] == ch then nodes[i] else TinyChild(values, nodes, i + 1, count, ch)
  }

  function Child(node: Node, branches: seq<seq<nat>>, ch: Byte): nat
    requires NodeOk(node, branches)
  {
    if node.childCount <= TINY_COUNT then
      TinyChild(node.children.values, node.children.nodes, 0, node.childCount, ch)
    else branches[node.children.branch][ch]
  }

  lemma {:induction false} TinyChildAt(values: seq<Byte>, nodes: seq<nat>, i: nat, count: nat, ch: Byte, at: nat)
    requires TinyOk(values, nodes, count) && i <= at < count && values[at] == ch
    ensures TinyChild(values, nodes, i, count, ch) == nodes[at]
    decreases count - i
  {
    if i < at {
      TinyChildAt(values, nodes, i + 1, count, ch, at);
    }
  }

  lemma {:induction false} TinyChildMissing(values: seq<Byte>, nodes: seq<nat>, i: nat, count: nat, ch: Byte)
    requires i <= count <= |values| == |nodes| && forall k :: i <= k < count ==> values[k] != ch
    ensures TinyChild(values, nodes, i, count, ch) == NO_NODE
    decreases count - i
  {
    if i < count {
      TinyChildMissing(values, nodes, i + 1, count, ch);
    }
  }

  lemma {:induction false} TinyChildWhere(values: seq<Byte>, nodes: seq<nat>, i: nat, count: nat, ch: Byte)
    returns (at: nat)
    requires i <= count <= |values| == |nodes|
    ensures i <= at <= count
    ensures if at < count then values[at] == ch else forall k :: i <= k < count ==> values[k] != ch
    decreases count - i
  {
    if i == count || values[i] == ch {
      at := i;
    } else {
      at := TinyChildWhere(values, nodes, i + 1, count, ch);
    }
  }

  /** The table after an insertion at `k`. */
  ghost predicate Inserted<T>(old_: seq<T>, new_: seq<T>, count: nat, k: nat, x: T)
    requires k <= count < |old_| == |new_|
  {
    && new_[..k] == old_[..k] && new_[k] == x
    && forall i :: k < i <= count ==> new_[i] == old_[i - 1]
  }

  ghost predicate InsertionPoint(values: seq<Byte>, count: nat, k: nat, ch: Byte)
    requires count <= |values|
  {
    k <= count && (forall i :: 0 <= i < k ==> values[i] < ch) && (forall i :: k <= i < count ==> ch < values[i])
  }

  lemma {:induction false} InsertedAt<T>(old_: seq<T>, new_: seq<T>, count: nat, k: nat, x: T, i: nat)
    requires k <= count < |old_| == |new_| && Inserted(old_, new_, count, k, x) && i <= count
    ensures new_[i] == if i < k then old_[i] else if i == k then x else old_[i - 1]
  {
    if i < k {
      assert new_[i] == new_[..k][i] == old_[..k][i];
    }
  }

  lemma {:induction false} InsertedIsOk(
    values: seq<Byte>, nodes: seq<nat>, values': seq<Byte>, nodes': seq<nat>, count: nat, k: nat, ch: Byte, node: nat)
    requires TinyOk(values, nodes, count) && count < TINY_COUNT && node != NO_NODE
    requires InsertionPoint(values, count, k, ch)
    requires |values'| == |nodes'| == TINY_COUNT
    requires Inserted(values, values', count, k, ch) && Inserted(nodes, nodes', count, k, node)
    ensures TinyOk(values', nodes', count + 1)
  {
    hide Inserted;
    forall i, j | 0 <= i < j < count + 1
      ensures values'[i] < values'[j]
    {
      InsertedAt(values, values', count, k, ch, i);
      InsertedAt(values, values', count, k, ch, j);
    }
    forall i | 0 <= i < count + 1
      ensures nodes'[i] != NO_NODE
    {
      InsertedAt(nodes, nodes', count, k, node, i);
    }
  }

  lemma {:induction false} InsertedLookup(
    values: seq<Byte>, nodes: seq<nat>, values': seq<Byte>, nodes': seq<nat>, count: nat, k: nat, ch: Byte, node: nat,
    d: Byte)
    requires TinyOk(values, nodes, count) && count < TINY_COUNT && node != NO_NODE
    requires InsertionPoint(values, count, k, ch)
    requires |values'| == |nodes'| == TINY_COUNT
    requires Inserted(values, values', count, k, ch) && Inserted(nodes, nodes', count, k, node)
    ensures TinyChild(values', nodes', 0, count + 1, d) ==
      if d == ch then node else TinyChild(values, nodes, 0, count, d)
  {
    InsertedIsOk(values, nodes, values', nodes', count, k, ch, node);
    if d == ch {
      TinyChildAt(values', nodes', 0, count + 1, d, k);
    } else {
      var at := TinyChildWhere(values, nodes, 0, count, d);
      if at < count {
        TinyChildAt(values, nodes, 0, count, d, at);
        var at' := if at < k then at else at + 1;
        InsertedAt(values, values', count, k, ch, at');
        InsertedAt(nodes, nodes', count, k, node, at');
        TinyChildAt(values', nodes', 0, count + 1, d, at');
      } else {
        TinyChildMissing(values, nodes, 0, count, d);
        forall i | 0 <= i < count + 1
          ensures values'[i] != d
        {
          InsertedAt(values, values', count, k, ch, i);
        }
        TinyChildMissing(values', nodes', 0, count + 1, d);
      }
    }
  }

  // ---------- The trie ----------

  ghost predicate Layout(nodes: seq<Node>, branches: seq<seq<nat>>) {
    && 0 < |nodes|
    && (forall n :: 0 <= n < |nodes| ==> NodeOk(nodes[n], branches))
    && (forall a, b :: 0 <= a < b < |nodes| && nodes[a].children.Branch? && nodes[b].children.Branch? ==>
          nodes[a].children.branch != nodes[b].children.branch)
  }

  function NodeFor(at: map<Bytes, nat>, p: Bytes): nat {
    if p in at then at[p] else NO_NODE
  }

  /** From the root every prefix leads to its node and nothing else leads anywhere. */
  ghost predicate Trie(nodes: seq<Node>, branches: seq<seq<nat>>, at: map<Bytes, nat>) {
    && Layout(nodes, branches)
    && [] in at && at[[]] == 0
    && (forall p :: p in at ==> at[p] < |nodes|)
    && (forall p, q :: p in at && q in at && at[p] == at[q] ==> p == q)
    && (forall p: Bytes, c: Byte :: p + [c] in at ==> p in at)
    && (forall p: Bytes, c: Byte :: p in at ==>
          Child(nodes[at[p]], branches, c) == NodeFor(at, p + [c]))
  }

  ghost predicate StartsOne(p: Bytes, bindings: Bindings) {
    exists e :: e in bindings && p <= e
  }

  lemma {:induction false} StartsMore(p: Bytes, bindings: Bindings, encoding: Bytes, key: Key)
    ensures StartsOne(p, bindings) || p <= encoding ==> StartsOne(p, bindings[encoding := key])
  {
    if StartsOne(p, bindings) {
      var e :| e in bindings && p <= e;
      assert e in bindings[encoding := key];
    }
    assert encoding in bindings[encoding := key];
  }

  /** There are no more nodes than the encodings need. */
  ghost predicate AllUsed(at: map<Bytes, nat>, bindings: Bindings) {
    forall p :: p in at && p != [] ==> StartsOne(p, bindings)
  }

  ghost predicate SameChildren(node: Node, branches: seq<seq<nat>>, node': Node, branches': seq<seq<nat>>)
    requires NodeOk(node, branches) && NodeOk(node', branches')
  {
    forall d: Byte :: Child(node', branches', d) == Child(node, branches, d)
  }

  /** `child`, new and empty, is now the child of `n` for `ch`, and no other link or key has changed. */
  ghost predicate Linked(
    nodes: seq<Node>, branches: seq<seq<nat>>, nodes': seq<Node>, branches': seq<seq<nat>>, n: nat, ch: Byte,
    child: nat)
    requires Layout(nodes, branches) && n < |nodes|
  {
    && Layout(nodes', branches') && child == |nodes| && |nodes'| == child + 1 && nodes'[child] == EMPTY_NODE
    && (forall k :: 0 <= k < |nodes| ==> nodes'[k].key == nodes[k].key)
    && Child(nodes'[n], branches', ch) == child
    && (forall d: Byte :: d != ch ==> Child(nodes'[n], branches', d) == Child(nodes[n], branches, d))
    && (forall k :: 0 <= k < |nodes| && k != n ==> SameChildren(nodes[k], branches, nodes'[k], branches'))
  }

  lemma {:induction false} EmptyHasNoChild(branches: seq<seq<nat>>, c: Byte)
    ensures Child(EMPTY_NODE, branches, c) == NO_NODE
  {
  }

  lemma {:induction false} LinkKeepsTrie(
    nodes: seq<Node>, branches: seq<seq<nat>>, at: map<Bytes, nat>, nodes': seq<Node>, branches': seq<seq<nat>>, n: nat,
    ch: Byte, p: Bytes, child: nat)
    requires Trie(nodes, branches, at) && p in at && at[p] == n && p + [ch] !in at
    requires Linked(nodes, branches, nodes', branches', n, ch, child)
    ensures Trie(nodes', branches', at[p + [ch] := child])
  {
    hide Child, NodeOk;
    var at' := at[p + [ch] := child];
    forall q: Bytes, c: Byte | q + [c] in at'
      ensures q in at'
    {
      if q + [c] == p + [ch] {
        assert q == (q + [c])[..|q|] == p;
      }
    }
    forall q: Bytes, c: Byte | q in at'
      ensures Child(nodes'[at'[q]], branches', c) == NodeFor(at', q + [c])
    {
      if q == p + [ch] {
        EmptyHasNoChild(branches', c);
        assert q + [c] !in at;
        assert q + [c] != q;
      } else if q + [c] == p + [ch] {
        assert q == (q + [c])[..|q|] == p && c == (q + [c])[|q|] == ch;
      } else if q == p {
        assert c != ch;
      } else {
        assert at[q] != n;
      }
    }
  }

  /** A node whose branch is its own alone changes without touching the others. */
  lemma {:induction false} OthersKeep(
    nodes: seq<Node>, branches: seq<seq<nat>>, nodes': seq<Node>, branches': seq<seq<nat>>, n: nat)
    requires Layout(nodes, branches) && n < |nodes| == |nodes'| - 1 && nodes'[|nodes|] == EMPTY_NODE
    requires forall k :: 0 <= k < |nodes| && k != n ==> nodes'[k] == nodes[k]
    requires NodeOk(nodes'[n], branches') && nodes'[n].children.Branch? && |branches| <= |branches'|
    requires forall b :: 0 <= b < |branches| && b != nodes'[n].children.branch ==> branches'[b] == branches[b]
    requires nodes'[n].children == nodes[n].children || nodes'[n].children.branch == |branches|
    ensures Layout(nodes', branches')
    ensures forall k :: 0 <= k < |nodes| && k != n ==> SameChildren(nodes[k], branches, nodes'[k], branches')
  {
  }

  lemma {:induction false} TrieFacts(nodes: seq<Node>, branches: seq<seq<nat>>, at: map<Bytes, nat>)
    requires Trie(nodes, branches, at)
    ensures InRange(nodes, at) && Injective(at) && Layout(nodes, branches)
  {
  }

  ghost predicate InRange(nodes: seq<Node>, at: map<Bytes, nat>) {
    forall p :: p in at ==> at[p] < |nodes|
  }

  ghost predicate Injective(at: map<Bytes, nat>) {
    forall p, q :: p in at && q in at && at[p] == at[q] ==> p == q
  }

  /** No node has moved, `target` is bound to `key`, no other key has changed, and what is new lies on the way there. */
  ghost predicate SetAt(
    nodes: seq<Node>, at: map<Bytes, nat>, nodes': seq<Node>, at': map<Bytes, nat>, target: Bytes, key: Key)
  {
    && InRange(nodes, at) && InRange(nodes', at')
    && target in at' && nodes'[at'[target]].key == key
    && (forall q :: q in at ==> q in at' && at'[q] == at[q])
    && (forall q :: q in at && q != target ==> nodes'[at[q]].key == nodes[at[q]].key)
    && (forall q :: q in at' && q !in at ==> q <= target && (q != target ==> nodes'[at'[q]].key == KEY_ZERO))
  }

  /** Every encoding has a node, and a node's key is what its encoding is bound to. */
  ghost predicate Keyed(nodes: seq<Node>, at: map<Bytes, nat>, bindings: Bindings)
    requires InRange(nodes, at)
  {
    && [] !in bindings
    && (forall e :: e in bindings ==> e in at)
    && (forall p :: p in at ==> nodes[at[p]].key == if p in bindings then bindings[p] else KEY_ZERO)
  }

  lemma {:induction false} SetKeeps(
    nodes: seq<Node>, at: map<Bytes, nat>, nodes': seq<Node>, at': map<Bytes, nat>, bindings: Bindings, encoding: Bytes,
    key: Key)
    requires SetAt(nodes, at, nodes', at', encoding, key) && encoding != []
    requires Keyed(nodes, at, bindings) && AllUsed(at, bindings)
    ensures Keyed(nodes', at', bindings[encoding := key]) && AllUsed(at', bindings[encoding := key])
  {
    hide StartsOne;
    forall q | q in at' && q != []
      ensures StartsOne(q, bindings[encoding := key])
    {
      StartsMore(q, bindings, encoding, key);
      assert q in at ==> StartsOne(q, bindings);
    }
  }

  lemma {:induction false} SetFurther(
    nodes: seq<Node>, at: map<Bytes, nat>, nodes1: seq<Node>, at1: map<Bytes, nat>, nodes': seq<Node>,
    at': map<Bytes, nat>, p: Bytes, encoding: Bytes, key: Key)
    requires encoding != [] && InRange(nodes, at) && |nodes| <= |nodes1|
    requires forall k :: 0 <= k < |nodes| ==> nodes1[k].key == nodes[k].key
    requires var q := p + [encoding[0]];
      q in at1 && at1[q] < |nodes1| && at1 == at[q := at1[q]] && (q in at ==> at1[q] == at[q])
      && (q !in at ==> nodes1[at1[q]].key == KEY_ZERO)
    requires SetAt(nodes1, at1, nodes', at', p + encoding, key)
    ensures SetAt(nodes, at, nodes', at', p + encoding, key)
  {
    var child := p + [encoding[0]];
    assert child <= p + encoding;
  }

  lemma {:induction false} PrefixOfPrefix(p: Bytes, k: nat, e: Bytes)
    requires k <= |p|
    ensures p < e ==> p[..k] <= e
  {
  }

  class InputMap {
    var nodes: seq<Node>
    var branches: seq<seq<nat>>

    /** The node for each encoding's prefixes, and the encodings set so far. */
    ghost var at: map<Bytes, nat>
    ghost var bindings: Bindings

    ghost predicate LayoutOk()
      reads this`nodes, this`branches
    {
      Layout(nodes, branches)
    }

    ghost predicate TrieOk()
      reads this`nodes, this`branches, this`at
    {
      Trie(nodes, branches, at)
    }

    ghost predicate Valid()
      reads this
    {
      TrieOk() && InRange(nodes, at) && Keyed(nodes, at, bindings) && AllUsed(at, bindings)
    }

    constructor ()
      ensures Valid() && bindings == map[]
    {
      nodes, branches, at, bindings := [EMPTY_NODE], [], map[[] := 0], map[];
    }

    method GetChild(n: nat, ch: Byte) returns (child: nat)
      requires LayoutOk() && n < |nodes|
      ensures child == Child(nodes[n], branches, ch)
    {
      var node := nodes[n];
      if node.childCount <= TINY_COUNT {
        var i := 0;
        while i < node.childCount
          invariant 0 <= i <= node.childCount
          invariant TinyChild(node.children.values, node.children.nodes, i, node.childCount, ch)
                 == TinyChild(node.children.values, node.children.nodes, 0, node.childCount, ch)
        {
          if node.children.values[i] == ch {
            return node.children.nodes[i];
          }
          i := i + 1;
        }
        child := NO_NODE;
      } else {
        child := branches[node.children.branch][ch];
      }
    }

    method AddToTable(n: nat, ch: Byte) returns (child: nat)
      requires LayoutOk() && n < |nodes| && nodes[n].childCount < TINY_COUNT && Child(nodes[n], branches, ch) == NO_NODE
      modifies this`nodes
      ensures Linked(old(nodes), old(branches), nodes, branches, n, ch, child)
    {
      hide TinyChild;
      var node := nodes[n];
      var values, table, count := node.children.values, node.children.nodes, node.childCount;
      NotInTable(values, table, count, ch);
      var k := FindInsertionPoint(values, count, ch);
      child := |nodes|;
      var values' := InsertAt(values, count, k, ch);
      var table' := InsertAt(table, count, k, child);
      InsertedIsOk(values, table, values', table', count, k, ch, child);
      nodes := nodes[n := Node(node.key, count + 1, Tiny(values', table'))] + [EMPTY_NODE];
      forall d: Byte
        ensures Child(nodes[n], branches, d) == if d == ch then child else Child(node, branches, d)
      {
        InsertedLookup(values, table, values', table', count, k, ch, child, d);
      }
    }

    method AddToBranch(n: nat, ch: Byte) returns (child: nat)
      requires LayoutOk() && n < |nodes| && nodes[n].childCount > TINY_COUNT && Child(nodes[n], branches, ch) == NO_NODE
      modifies this`nodes, this`branches
      ensures Linked(old(nodes), old(branches), nodes, branches, n, ch, child)
    {
      var node := nodes[n];
      var b := node.children.branch;
      child := |nodes|;
      var entries: seq<nat> := branches[b][ch := child];
      branches := branches[b := entries];
      nodes := nodes[n := node.(childCount := node.childCount + 1)] + [EMPTY_NODE];
      assert branches[b][ch] != NO_NODE;
      OthersKeep(old(nodes), old(branches), nodes, branches, n);
    }

    method Promote(n: nat, ch: Byte) returns (child: nat)
      requires LayoutOk() && n < |nodes| && nodes[n].childCount == TINY_COUNT
      requires Child(nodes[n], branches, ch) == NO_NODE
      modifies this`nodes, this`branches
      ensures Linked(old(nodes), old(branches), nodes, branches, n, ch, child)
    {
      var node := nodes[n];
      var entries := FillBranch(node.children.values, node.children.nodes);
      child := |nodes|;
      branches := branches + [entries[ch := child]];
      nodes := nodes[n := Node(node.key, TINY_COUNT + 1, Branch(|branches| - 1))] + [EMPTY_NODE];
      assert branches[|branches| - 1][ch] != NO_NODE;
      OthersKeep(old(nodes), old(branches), nodes, branches, n);
    }

    method AddChild(n: nat, ch: Byte) returns (child: nat)
      requires LayoutOk() && n < |nodes| && Child(nodes[n], branches, ch) == NO_NODE
      modifies this`nodes, this`branches
      ensures Linked(old(nodes), old(branches), nodes, branches, n, ch, child)
    {
      if nodes[n].childCount < TINY_COUNT {
        child := AddToTable(n, ch);
      } else if nodes[n].childCount == TINY_COUNT {
        child := Promote(n, ch);
      } else {
        child := AddToBranch(n, ch);
      }
    }

    method GetOrCreateChild(n: nat, ch: Byte, ghost p: Bytes) returns (child: nat)
      requires TrieOk() && n < |nodes| && p in at && at[p] == n
      modifies this`nodes, this`branches, this`at
      ensures TrieOk() && p + [ch] in at && child == at[p + [ch]]
      ensures old(|nodes|) <= |nodes| && forall k :: 0 <= k < old(|nodes|) ==> nodes[k].key == old(nodes[k].key)
      ensures p + [ch] in old(at) ==> at == old(at)
      ensures p + [ch] !in old(at) ==> at == old(at)[p + [ch] := child] && nodes[child].key == KEY_ZERO
    {
      child := GetChild(n, ch);
      if child == NO_NODE {
        RootIsNoChild(p + [ch]);
        child := AddChild(n, ch);
        at := at[p + [ch] := child];
        LinkKeepsTrie(old(nodes), old(branches), old(at), nodes, branches, n, ch, p, child);
      }
    }

    lemma {:induction false} RootIsNoChild(p: Bytes)
      requires TrieOk() && p != []
      ensures p in at ==> at[p] != NO_NODE
    {
    }

    /** From node `n`, which is at `p`, set what lies `encoding` further. */
    method SetHelper(n: nat, encoding: Bytes, key: Key, ghost p: Bytes)
      requires TrieOk() && n < |nodes| && p in at && at[p] == n
      modifies this`nodes, this`branches, this`at
      ensures TrieOk() && SetAt(old(nodes), old(at), nodes, at, p + encoding, key)
      decreases |encoding|
    {
      hide Trie;
      TrieFacts(nodes, branches, at);
      if encoding == [] {
        assert p + encoding == p;
        nodes := nodes[n := nodes[n].(key := key)];
        KeyKeepsTrie(old(nodes), branches, at, n, key);
      } else {
        var child := GetOrCreateChild(n, encoding[0], p);
        ghost var nodes1, at1 := nodes, at;
        TrieFacts(nodes, branches, at);
        assert p + [encoding[0]] + encoding[1..] == p + encoding;
        SetHelper(child, encoding[1..], key, p + [encoding[0]]);
        SetFurther(old(nodes), old(at), nodes1, at1, nodes, at, p, encoding, key);
      }
    }

    method Set(encoding: Bytes, key: Key)
      requires Valid() && encoding != []
      modifies this
      ensures Valid() && bindings == old(bindings)[encoding := key]
    {
      hide SetAt, Keyed, AllUsed;
      TrieFacts(nodes, branches, at);
      assert [] + encoding == encoding;
      SetHelper(0, encoding, key, []);
      bindings := bindings[encoding := key];
      TrieFacts(nodes, branches, at);
      SetKeeps(old(nodes), old(at), nodes, at, old(bindings), encoding, key);
    }

    /** The answer of the finite map of everything set so far. */
    method LookupKey(input: Bytes) returns (found: Found)
      requires Valid()
      ensures found == Lookup(bindings, input)
    {
      hide Trie, Layout, Child, Incomplete, AllUsed;
      var node := 0;
      var longestMatch, longestMatchLen: nat := KEY_ZERO, 0;
      assert input[..0] == [];
      NodeAt([]);
      for i := 0 to |input|
        invariant input[..i] in at && node == at[input[..i]] < |nodes|
        invariant longestMatchLen == LongestMatch(bindings, input, i)
        invariant longestMatch == if longestMatchLen == 0 then KEY_ZERO else bindings[input[..longestMatchLen]]
      {
        assert input[..i + 1] == input[..i] + [input[i]];
        node := GetChild(node, input[i]);
        ChildAt(input[..i], input[i]);
        if node == NO_NODE {
          NothingBelow(input, i + 1);
          return Found(longestMatchLen, longestMatch, false);
        }
        NodeAt(input[..i + 1]);
        if IsKey(nodes[node].key) {
          longestMatchLen := i + 1;
          longestMatch := nodes[node].key;
        }
      }
      assert input[..|input|] == input;
      IncompleteIffChild(input);
      return Found(longestMatchLen, longestMatch, nodes[node].childCount > 0);
    }

    lemma {:induction false} ChildAt(p: Bytes, c: Byte)
      requires Valid() && p in at
      ensures at[p] < |nodes| && NodeOk(nodes[at[p]], branches)
      ensures Child(nodes[at[p]], branches, c) == NodeFor(at, p + [c])
      ensures p + [c] in at ==> 0 < at[p + [c]]
    {
    }

    lemma {:induction false} NodeAt(p: Bytes)
      requires Valid()
      ensures LayoutOk() && [] in at && at[[]] == 0
      ensures p in at ==>
        && at[p] < |nodes| && NodeOk(nodes[at[p]], branches)
        && nodes[at[p]].key == if p in bindings then bindings[p] else KEY_ZERO
    {
    }

    /** Every prefix of an encoding has a node. */
    lemma {:induction false} PrefixIn(p: Bytes, k: nat)
      requires Trie(nodes, branches, at) && p in at && k <= |p|
      ensures p[..k] in at
      decreases |p| - k
    {
      if k < |p| {
        PrefixIn(p, k + 1);
        assert p[..k + 1] == p[..k] + [p[k]];
      } else {
        assert p[..k] == p;
      }
    }

    lemma {:induction false} NothingBelow(input: Bytes, k: nat)
      requires Valid() && 0 < k <= |input| && input[..k] !in at
      ensures LongestMatch(bindings, input, |input|) == LongestMatch(bindings, input, k - 1)
      ensures !Incomplete(bindings, input)
    {
      hide Trie, AllUsed;
      forall e | e in bindings
        ensures !(input[..k] <= e) && !(input < e)
      {
        PrefixOfPrefix(input, k, e);
        if input[..k] <= e {
          assert e[..k] == input[..k];
          PrefixIn(e, k);
        }
      }
      forall m | k <= m <= |input|
        ensures input[..m] !in bindings
      {
        assert input[..m][..k] == input[..k];
      }
      NoLongerMatch(bindings, input, k, |input|);
    }

    lemma {:induction false} UsedAt(p: Bytes)
      requires Valid() && p in at && p != []
      ensures StartsOne(p, bindings)
    {
    }

    /** A node has children exactly when some encoding goes on from there. */
    lemma {:induction false} IncompleteIffChild(p: Bytes)
      requires Valid() && p in at
      ensures at[p] < |nodes| && (nodes[at[p]].childCount > 0 <==> Incomplete(bindings, p))
    {
      NodeAt(p);
      if nodes[at[p]].childCount > 0 {
        ChildGoesOn(p);
      }
      forall e | e in bindings && p < e
        ensures nodes[at[p]].childCount > 0
      {
        GoesOnByChild(p, e);
      }
    }

    lemma {:induction false} ChildGoesOn(p: Bytes)
      requires Valid() && p in at && at[p] < |nodes| && nodes[at[p]].childCount > 0
      ensures Incomplete(bindings, p)
    {
      hide Trie, AllUsed, Child, NodeOk;
      NodeAt(p);
      var c := SomeChild(nodes[at[p]], branches);
      ChildAt(p, c);
      UsedAt(p + [c]);
      var e :| e in bindings && p + [c] <= e;
      assert p < e;
    }

    lemma {:induction false} GoesOnByChild(p: Bytes, e: Bytes)
      requires Valid() && p in at && at[p] < |nodes| && e in bindings && p < e
      ensures nodes[at[p]].childCount > 0
    {
      hide Trie, AllUsed, Child, NodeOk;
      PrefixIn(e, |p| + 1);
      assert e[..|p| + 1] == p + [e[|p|]];
      ChildAt(p, e[|p|]);
      ChildMeansCount(nodes[at[p]], branches, e[|p|]);
    }
  }

  lemma {:induction false} SomeChild(node: Node, branches: seq<seq<nat>>) returns (c: Byte)
    requires NodeOk(node, branches) && node.childCount > 0
    ensures Child(node, branches, c) != NO_NODE
  {
    if node.childCount <= TINY_COUNT {
      c := node.children.values[0];
      TinyChildAt(node.children.values, node.children.nodes, 0, node.childCount, c, 0);
    } else {
      c :| branches[node.children.branch][c] != NO_NODE;
    }
  }

  lemma {:induction false} ChildMeansCount(node: Node, branches: seq<seq<nat>>, c: Byte)
    requires NodeOk(node, branches) && Child(node, branches, c) != NO_NODE
    ensures node.childCount > 0
  {
  }

  lemma {:induction false} KeyKeepsTrie(
    nodes: seq<Node>, branches: seq<seq<nat>>, at: map<Bytes, nat>, n: nat, key: Key)
    requires Trie(nodes, branches, at) && n < |nodes|
    ensures Trie(nodes[n := nodes[n].(key := key)], branches, at)
  {
    var nodes' := nodes[n := nodes[n].(key := key)];
    forall p: Bytes, c: Byte | p in at
      ensures Child(nodes'[at[p]], branches, c) == NodeFor(at, p + [c])
    {
      assert Child(nodes'[at[p]], branches, c) == Child(nodes[at[p]], branches, c);
    }
  }

  lemma {:induction false} NotInTable(values: seq<Byte>, nodes: seq<nat>, count: nat, ch: Byte)
    requires TinyOk(values, nodes, count) && TinyChild(values, nodes, 0, count, ch) == NO_NODE
    ensures forall i :: 0 <= i < count ==> values[i] != ch
  {
    forall i | 0 <= i < count
      ensures values[i] != ch
    {
      if values[i] == ch {
        TinyChildAt(values, nodes, 0, count, ch, i);
      }
    }
  }

  /** A full table as an entries by byte. */
  method FillBranch(values: seq<Byte>, nodes: seq<nat>) returns (entries: seq<nat>)
    requires TinyOk(values, nodes, TINY_COUNT)
    ensures |entries| == 256 && forall d: Byte :: entries[d] == TinyChild(values, nodes, 0, TINY_COUNT, d)
  {
    entries := seq(256, _ => NO_NODE);
    for i := 0 to TINY_COUNT
      invariant |entries| == 256
      invariant forall j :: 0 <= j < i ==> entries[values[j]] == nodes[j]
      invariant forall d: Byte :: (forall j :: 0 <= j < i ==> values[j] != d) ==> entries[d] == NO_NODE
    {
      entries := entries[values[i] := nodes[i]];
    }
    forall d: Byte
      ensures entries[d] == TinyChild(values, nodes, 0, TINY_COUNT, d)
    {
      var at := TinyChildWhere(values, nodes, 0, TINY_COUNT, d);
      if at < TINY_COUNT {
        TinyChildAt(values, nodes, 0, TINY_COUNT, d, at);
      } else {
        TinyChildMissing(values, nodes, 0, TINY_COUNT, d);
      }
    }
  }

  /** The first place whose value is greater. */
  method FindInsertionPoint(values: seq<Byte>, count: nat, ch: Byte) returns (k: nat)
    requires count <= |values| && (forall i, j :: 0 <= i < j < count ==> values[i] < values[j])
    requires forall i :: 0 <= i < count ==> values[i] != ch
    ensures InsertionPoint(values, count, k, ch)
  {
    k := count;
    for i := 0 to count
      invariant k == count && forall j :: 0 <= j < i ==> values[j] < ch
    {
      if ch < values[i] {
        k := i;
        break;
      }
    }
  }

  /** Shift the entries from `k` on up by one and put `x` in their place. */
  method InsertAt<T>(table: seq<T>, count: nat, k: nat, x: T) returns (r: seq<T>)
    requires k <= count < |table|
    ensures |r| == |table| && Inserted(table, r, count, k, x)
  {
    r := table;
    var j := count;
    while j > k
      invariant k <= j <= count && |r| == |table|
      invariant r[..j + 1] == table[..j + 1]
      invariant forall i :: j < i <= count ==> r[i] == table[i - 1]
    {
      assert r[j - 1] == r[..j + 1][j - 1] == table[j - 1];
      assert r[j := r[j - 1]][..j] == r[..j + 1][..j] == table[..j];
      r := r[j := r[j - 1]];
      j := j - 1;
    }
    assert r[..k] == r[..k + 1][..k] == table[..k];
    r := r[k := x];
  }
}
