// The radix tree of the KV cache as a value: matching with node splitting, insertion and
// leaf deletion, and what they mean for the cached prefixes.
module RadixTree {
  import opened Basics

  // One matching unit of a key: a page of tokens in the namespace of its extra key.
  datatype Unit = Unit(extra: Option<string>, tokens: seq<int>)

  type Key = seq<Unit>

  // The KV-cache location of one unit.
  type Slot = int

  // A list of sibling nodes: the first one's segment, slots, lock count and children,
  // then its later siblings.
  datatype Forest = Nil | Node(key: Key, value: seq<Slot>, locks: nat, kids: Forest, rest: Forest)

  // Units shared at the front of two keys.
  function Common(a: Key, b: Key): (n: nat)
    ensures n <= |a| && n <= |b|
    ensures a[..n] == b[..n]
    ensures n < |a| && n < |b| ==> a[n] != b[n]
  {
    if a == [] || b == [] || a[0] != b[0] then 0 else 1 + Common(a[1..], b[1..])
  }

  predicate HasHead(f: Forest, u: Unit) {
    f.Node? && ((f.key != [] && f.key[0] == u) || HasHead(f.rest, u))
  }

  // Nonempty segments with one slot per unit, siblings told apart by their first unit.
  predicate WellFormed(f: Forest) {
    f.Node? ==>
      && f.key != [] && |f.value| == |f.key| && !HasHead(f.rest, f.key[0])
      && WellFormed(f.kids) && WellFormed(f.rest)
  }

  // --- Meaning: the slot cached for the last unit of a path from the root ---

  function Get(f: Forest, path: Key): Option<Slot>
    requires WellFormed(f)
  {
    if f.Nil? || path == [] then None
    else if f.key[0] != path[0] then Get(f.rest, path)
    else
      var m := Common(f.key, path);
      if m == |path| then (assert m > 0; Some(f.value[m - 1]))
      else if m == |f.key| then Get(f.kids, path[m..])
      else None
  }

  // --- Matching ---

  function MatchSlots(f: Forest, key: Key): seq<Slot>
    requires WellFormed(f)
  {
    if f.Nil? || key == [] then []
    else if f.key[0] != key[0] then MatchSlots(f.rest, key)
    else
      var m := Common(f.key, key);
      if m < |f.key| then f.value[..m] else f.value + MatchSlots(f.kids, key[m..])
  }

  // The tree after a match: the node in which the match ends is split there.
  function AfterMatch(f: Forest, key: Key): Forest
    requires WellFormed(f)
  {
    if f.Nil? || key == [] then f
    else if f.key[0] != key[0] then f.(rest := AfterMatch(f.rest, key))
    else
      var m := Common(f.key, key);
      if m < |f.key| then SplitNode(f, m) else f.(kids := AfterMatch(f.kids, key[m..]))
  }

  // The upper part keeps the place and the lock count, the lower part the children.
  function SplitNode(f: Forest, m: nat): Forest
    requires f.Node? && m <= |f.key| && m <= |f.value|
  {
    Node(f.key[..m], f.value[..m], f.locks, Node(f.key[m..], f.value[m..], f.locks, f.kids, Nil), f.rest)
  }

  // --- Insertion ---

  function Insert(f: Forest, key: Key, value: seq<Slot>): Forest
    requires WellFormed(f) && |value| == |key|
    decreases f
  {
    if key == [] then f
    else if f.Nil? then Node(key, value, 0, Nil, Nil)
    else if f.key[0] != key[0] then f.(rest := Insert(f.rest, key, value))
    else
      var m := Common(f.key, key);
      if m < |f.key| then
        // the remaining key does not continue the lower part, so it becomes its sibling
        var added := if m == |key| then Nil else Node(key[m..], value[m..], 0, Nil, Nil);
        Node(f.key[..m], f.value[..m], f.locks, Node(f.key[m..], f.value[m..], f.locks, f.kids, added), f.rest)
      else f.(kids := Insert(f.kids, key[m..], value[m..]))
  }

  // --- Node boundaries and deletion ---

  // Whether a node ends exactly at the path.
  predicate IsNode(f: Forest, path: Key)
    requires WellFormed(f)
  {
    f.Node? && path != [] &&
    if f.key[0] != path[0] then IsNode(f.rest, path)
    else f.key <= path && (|f.key| == |path| || IsNode(f.kids, path[|f.key|..]))
  }

  function NodeAt(f: Forest, path: Key): (n: Forest)
    requires WellFormed(f) && IsNode(f, path)
    ensures n.Node? && WellFormed(n)
  {
    if f.key[0] != path[0] then NodeAt(f.rest, path)
    else if |f.key| == |path| then f
    else NodeAt(f.kids, path[|f.key|..])
  }

  function DeleteLeaf(f: Forest, path: Key): Forest
    requires WellFormed(f) && IsNode(f, path)
  {
    if f.key[0] != path[0] then f.(rest := DeleteLeaf(f.rest, path))
    else if |f.key| == |path| then f.rest
    else f.(kids := DeleteLeaf(f.kids, path[|f.key|..]))
  }
}
