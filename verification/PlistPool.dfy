/** The pool of semantic objects. Objects are linked through their fields, so they are modelled as
    cells that refer to each other by index. */
module PlistPool {
  import opened Basics
  import opened PlistText
  import opened PlistValues
  import opened PlistLexer
  import opened PlistGrammar

  type Ptr = Option<nat>

  datatype Node = Node(next: Ptr, elements: Ptr, obj: Option<Value>, key: Option<string>, size: int,
                       data: Option<seq<Byte>>, text: Option<string>, number: int, idref: int)

  /** A new object is all zeros. */
  const ZERO := Node(None, None, None, None, 0, None, None, 0, 0)

  /** Nothing is attached that a final cleanup would have to release. */
  predicate Blank(c: Node) {
    c.obj.None? && c.key.None? && c.data.None? && c.text.None?
  }

  // ----- lists of cells -----

  predicate Distinct(ns: seq<nat>) {
    forall i, j :: 0 <= i < j < |ns| ==> ns[i] != ns[j]
  }

  function First(ns: seq<nat>): Ptr {
    if ns == [] then None else Some(ns[0])
  }

  function At(ns: seq<nat>, k: nat): Ptr {
    if k < |ns| then Some(ns[k]) else None
  }

  predicate NextIs(cells: seq<Node>, ns: seq<nat>, i: nat) {
    i < |ns| && ns[i] < |cells| && cells[ns[i]].next == At(ns, i + 1)
  }

  /** The cells `ns`, linked in this order. */
  predicate Linked(cells: seq<Node>, ns: seq<nat>) {
    && (forall i :: 0 <= i < |ns| ==> ns[i] < |cells|)
    && (forall i :: 0 <= i < |ns| ==> NextIs(cells, ns, i))
    && Distinct(ns)
  }

  /** A cell that carries an item of a list. */
  predicate Carries(c: Node, item: Item) {
    c.obj == Some(item.obj) && c.key == item.key && c.data.None? && c.text.None?
  }

  predicate Listed(cells: seq<Node>, ns: seq<nat>, items: seq<Item>) {
    Linked(cells, ns) && |ns| == |items| && forall i :: 0 <= i < |ns| ==> Carries(cells[ns[i]], items[i])
  }

  function Rev<T>(s: seq<T>): (r: seq<T>)
    ensures |r| == |s|
  {
    if s == [] then [] else [s[|s| - 1]] + Rev(s[..|s| - 1])
  }

  lemma {:induction false} RevAt<T>(s: seq<T>, i: nat)
    requires i < |s|
    ensures Rev(s)[i] == s[|s| - 1 - i]
  {
    if i > 0 { RevAt(s[..|s| - 1], i - 1); }
  }

  function NewestFirst(c: Chain): seq<Item> {
    if c.Nil? then [] else [c.item] + NewestFirst(c.next)
  }

  lemma {:induction false} RevOnto<T>(x: T, s: seq<T>)
    ensures Rev([x] + s) == Rev(s) + [x]
  {
    if s == [] {
      assert [x] + s == [x];
      assert Rev([x]) == [x] + Rev([x][..0]);
    } else {
      var front, last := s[..|s| - 1], s[|s| - 1];
      RevOnto(x, front);
      assert ([x] + s)[..|s|] == [x] + front;
      assert [last] + (Rev(front) + [x]) == ([last] + Rev(front)) + [x];
    }
  }

  /** Reversing the list that the actions built gives source order. */
  lemma {:induction false} RevIsOldestFirst(c: Chain)
    ensures Rev(NewestFirst(c)) == OldestFirst(c)
  {
    if c.Link? {
      RevIsOldestFirst(c.next);
      RevOnto(c.item, NewestFirst(c.next));
    }
  }

  // ----- what a cell stands for -----

  /** A cell as the lexer fills it in. */
  predicate Loaded(c: Node, load: Payload) {
    && c.obj.None? && c.key.None?
    && match load
       case Nothing => true
       case Mark(idref) => c.idref == idref && c.data.None? && c.text.None?
       case Text(idref, text) => c.idref == idref && c.data.None? && c.text == Some(text)
       case Bytes(idref, bytes) => c.idref == idref && c.data == Some(bytes) && c.size == |bytes| && c.text.None?
       case Number(idref, size, number) =>
         c.idref == idref && c.size == size && c.number == number && c.data.None? && c.text.None?
       case Ref(id) => c.idref == id && c.data.None? && c.text.None?
       case Truth(b) => c.number == (if b then 1 else 0) && c.data.None? && c.text.None?
  }

  predicate HoldsObject(c: Node, v: Value) {
    c.obj == Some(v) && c.key.None? && c.data.None? && c.text.None?
  }

  /** The semantic value that cell `h` stands for, and the cells `ns` it is made of. */
  predicate Holds(cells: seq<Node>, ns: seq<nat>, h: nat, sem: Sem) {
    && ns != [] && ns[0] == h && h < |cells|
    && match sem
       case Leaf(load) => ns == [h] && Loaded(cells[h], load)
       case Object(v) => ns == [h] && HoldsObject(cells[h], v)
       case Group(idref, chain) =>
         && Blank(cells[h]) && cells[h].idref == idref && cells[h].elements == First(ns[1..])
         && h !in ns[1..] && Listed(cells, ns[1..], NewestFirst(chain))
       case Chained(chain) => Listed(cells, ns, NewestFirst(chain))
  }

  lemma OneListed(cells: seq<Node>, h: nat, item: Item)
    requires h < |cells| && Carries(cells[h], item) && cells[h].next.None?
    ensures Holds(cells, [h], h, Chained(Link(item, Nil)))
  {
    assert NewestFirst(Link(item, Nil)) == [item] + NewestFirst(Nil);
    assert NextIs(cells, [h], 0);
  }

  // ----- who owns a cell -----

  const FREE := -1
  const LOOSE := -2

  predicate Owned(owner: seq<int>, ns: seq<nat>, slot: int) {
    forall i :: 0 <= i < |ns| ==> ns[i] < |owner| && owner[ns[i]] == slot
  }

  // ----- moving the first cell of a list to the front of another -----

  lemma LinkedFrame(cells: seq<Node>, cells': seq<Node>, ns: seq<nat>)
    requires Linked(cells, ns) && |cells'| >= |cells|
    requires forall i :: 0 <= i < |ns| ==> cells'[ns[i]].next == cells[ns[i]].next
    ensures Linked(cells', ns)
  {
    forall i | 0 <= i < |ns| ensures NextIs(cells', ns, i) {
      assert NextIs(cells, ns, i);
    }
  }

  lemma RestLinked(cells: seq<Node>, ns: seq<nat>)
    requires Linked(cells, ns) && ns != []
    ensures Linked(cells, ns[1..]) && cells[ns[0]].next == First(ns[1..]) && ns[0] !in ns[1..]
  {
    var t := ns[1..];
    forall i | 0 <= i < |t| ensures NextIs(cells, t, i) {
      assert t[i] == ns[i + 1] && NextIs(cells, ns, i + 1);
    }
    assert NextIs(cells, ns, 0);
  }

  lemma FrontLinked(cells: seq<Node>, t: nat, ns: seq<nat>)
    requires Linked(cells, ns) && t < |cells| && t !in ns
    ensures Linked(cells[t := cells[t].(next := First(ns))], [t] + ns)
  {
    var cells' := cells[t := cells[t].(next := First(ns))];
    var all := [t] + ns;
    forall i | 0 <= i < |all| ensures NextIs(cells', all, i) {
      if i > 0 { assert NextIs(cells, ns, i - 1); }
    }
  }

  lemma ListedFrame(cells: seq<Node>, cells': seq<Node>, ns: seq<nat>, items: seq<Item>)
    requires Listed(cells, ns, items) && |cells'| >= |cells|
    requires forall i :: 0 <= i < |ns| ==> cells'[ns[i]] == cells[ns[i]]
    ensures Listed(cells', ns, items)
  {
    LinkedFrame(cells, cells', ns);
  }

  lemma RestListed(cells: seq<Node>, ns: seq<nat>, items: seq<Item>)
    requires Listed(cells, ns, items) && ns != []
    ensures Listed(cells, ns[1..], items[1..]) && cells[ns[0]].next == First(ns[1..]) && ns[0] !in ns[1..]
  {
    RestLinked(cells, ns);
  }

  lemma PutInFront(cells: seq<Node>, t: nat, ns: seq<nat>, item: Item, items: seq<Item>)
    requires Listed(cells, ns, items) && t < |cells| && t !in ns && Carries(cells[t], item)
    ensures Listed(cells[t := cells[t].(next := First(ns))], [t] + ns, [item] + items)
  {
    FrontLinked(cells, t, ns);
  }

  /** The reversal after `k` cells: those are linked below the header, newest last; the others still
      form the old list. */
  predicate Reversing(before: seq<Node>, cells: seq<Node>, header: nat, ns: seq<nat>, items: seq<Item>, k: nat)
    requires k <= |ns|
  {
    && |cells| == |before| && header < |cells| && header !in ns && |items| == |ns|
    && Listed(cells, ns[k..], items[k..]) && Listed(cells, Rev(ns[..k]), Rev(items[..k]))
    && cells[header] == before[header].(elements := First(Rev(ns[..k])))
    && forall c :: 0 <= c < |cells| && c != header && c !in ns ==> cells[c] == before[c]
  }

  /** A group whose elements are being used up: the cells and owners at the start, the header, the
      elements in source order and what they carry. */
  datatype Drain = Drain(cells: seq<Node>, owner: seq<int>, header: nat, slot: int, ns: seq<nat>, items: seq<Item>)

  /** The builders after `k` elements: those have been given back, the others are still linked. */
  predicate Draining(d: Drain, cells: seq<Node>, owner: seq<int>, k: nat) {
    && |cells| == |d.cells| == |owner| == |d.owner| && d.header < |cells| && d.header !in d.ns && |d.items| == |d.ns|
    && (forall i :: 0 <= i < |d.ns| ==> d.ns[i] < |cells| && owner[d.ns[i]] == (if i < k then FREE else d.slot))
    && (forall i :: k <= i < |d.ns| ==> Carries(cells[d.ns[i]], d.items[i]))
    && (forall i :: k <= i < |d.ns| ==> NextIs(cells, d.ns, i))
    && Distinct(d.ns)
    && forall c :: 0 <= c < |cells| && c !in d.ns ==> cells[c] == d.cells[c] && owner[c] == d.owner[c]
  }

  /** The part of the list that is left. */
  lemma StillListed(d: Drain, cells: seq<Node>, owner: seq<int>, k: nat)
    requires k <= |d.ns| && Draining(d, cells, owner, k)
    ensures Listed(cells, d.ns[k..], d.items[k..]) && Owned(owner, d.ns[k..], d.slot)
  {
    var t := d.ns[k..];
    forall i | 0 <= i < |t| ensures NextIs(cells, t, i) {
      assert t[i] == d.ns[k + i] && NextIs(cells, d.ns, k + i);
    }
  }

  /** The start of a drain, seen from before the reversal. */
  ghost predicate Prepared(d: Drain, before: seq<Node>, was: seq<int>, h: nat, slot: int, ns: seq<nat>) {
    && d.header == h && d.slot == slot && d.owner == was && |d.cells| == |before| == |was|
    && ns != [] && ns[0] == h && h < |before| && was[h] == slot && slot >= 0 && Blank(before[h])
    && d.cells[h] == before[h].(elements := First(d.ns))
    && (forall c :: c in d.ns <==> c in ns[1..])
    && forall c :: 0 <= c < |before| && c !in ns ==> d.cells[c] == before[c]
  }

  lemma DrainingStarts(d: Drain, tail: seq<nat>)
    requires Listed(d.cells, d.ns, d.items) && Owned(d.owner, tail, d.slot) && |d.owner| == |d.cells|
    requires d.header < |d.cells| && d.header !in tail && forall c :: c in tail <==> c in d.ns
    ensures Draining(d, d.cells, d.owner, 0)
  {
    forall i | 0 <= i < |d.ns| ensures d.ns[i] in tail {
      assert d.ns[i] in d.ns;
    }
  }

  /** A group has become the object `v`: its header holds it, and its elements have been given back. */
  predicate Built(before: seq<Node>, was: seq<int>, cells: seq<Node>, owner: seq<int>,
                  h: nat, ns: seq<nat>, slot: int, v: Value)
    requires ns != []
  {
    && |cells| == |before| == |owner| == |was| && h < |cells|
    && HoldsObject(cells[h], v) && owner[h] == slot && cells[h].idref == before[h].idref
    && Owned(owner, ns[1..], FREE)
    && forall c :: 0 <= c < |cells| && c !in ns ==> cells[c] == before[c] && owner[c] == was[c]
  }

  lemma DrainingOn(d: Drain, cells: seq<Node>, owner: seq<int>, cells': seq<Node>, owner': seq<int>, k: nat)
    requires k < |d.ns| && Draining(d, cells, owner, k)
    requires |cells'| == |cells| && owner' == owner[d.ns[k] := FREE]
    requires forall c :: 0 <= c < |cells| && c != d.ns[k] ==> cells'[c] == cells[c]
    ensures Draining(d, cells', owner', k + 1)
  {
    forall i | k + 1 <= i < |d.ns| ensures NextIs(cells', d.ns, i) {
      assert NextIs(cells, d.ns, i);
    }
  }

  lemma ReversalStarts(before: seq<Node>, cells: seq<Node>, header: nat, ns: seq<nat>, items: seq<Item>)
    requires header < |before| && header !in ns && Listed(before, ns, items)
    requires cells == before[header := before[header].(elements := None)]
    ensures Reversing(before, cells, header, ns, items, 0)
  {
    ListedFrame(before, cells, ns, items);
    assert ns[0..] == ns && items[0..] == items && ns[..0] == [] && items[..0] == [];
  }

  lemma ReversalEnds(before: seq<Node>, cells: seq<Node>, header: nat, ns: seq<nat>, items: seq<Item>)
    requires Reversing(before, cells, header, ns, items, |ns|)
    ensures Listed(cells, Rev(ns), Rev(items)) && cells[header] == before[header].(elements := First(Rev(ns)))
  {
    assert ns[..|ns|] == ns && items[..|ns|] == items;
  }

  class Pool {
    var cells: seq<Node>
    var freeObjects: Ptr
    /** The stack slot a cell belongs to, or FREE, or LOOSE for cells nobody uses any more. */
    ghost var owner: seq<int>
    ghost var freeNodes: seq<nat>

    ghost predicate Valid()
      reads this
    {
      && |owner| == |cells|
      && Linked(cells, freeNodes) && freeObjects == First(freeNodes)
      && (forall i :: 0 <= i < |freeNodes| ==> owner[freeNodes[i]] == FREE)
      && (forall c :: 0 <= c < |cells| && owner[c] < 0 ==> Blank(cells[c]))
    }

    constructor ()
      ensures Valid() && cells == [] && owner == []
    {
      cells, freeObjects, owner, freeNodes := [], None, [], [];
    }

    method NewObject() returns (o: nat)
      requires Valid()
      modifies this
      ensures Valid() && o < |cells| && Blank(cells[o]) && owner[o] == LOOSE
      ensures o >= |old(cells)| || old(owner[o]) == FREE
      ensures |old(cells)| <= |cells| <= |old(cells)| + 1 && (|cells| > |old(cells)| ==> o == |old(cells)|)
      ensures forall c :: 0 <= c < |old(cells)| && c != o ==> cells[c] == old(cells[c]) && owner[c] == old(owner[c])
    {
      if freeObjects.Some? {
        o := freeObjects.value;
        RestLinked(cells, freeNodes);
        freeObjects := cells[o].next;
        owner := owner[o := LOOSE];
        freeNodes := freeNodes[1..];
      } else {
        o := |cells|;
        LinkedFrame(cells, cells + [ZERO], freeNodes);
        cells := cells + [ZERO];
        owner := owner + [LOOSE];
      }
    }

    method FreeObject(o: nat)
      requires Valid() && o < |cells| && owner[o] != FREE && Blank(cells[o])
      modifies this
      ensures Valid() && |cells| == |old(cells)| && owner == old(owner)[o := FREE]
      ensures forall c :: 0 <= c < |cells| && c != o ==> cells[c] == old(cells[c])
    {
      FrontLinked(cells, o, freeNodes);
      cells := cells[o := cells[o].(next := freeObjects)];
      freeObjects := Some(o);
      owner := owner[o := FREE];
      freeNodes := [o] + freeNodes;
    }

    /** Gives a cell that a slot owns, or is about to own, new contents. */
    method Set(o: nat, cell: Node, ghost slot: nat)
      requires Valid() && o < |cells| && owner[o] != FREE
      modifies `cells, `owner
      ensures Valid() && cells == old(cells)[o := cell] && owner == old(owner)[o := slot]
    {
      LinkedFrame(cells, cells[o := cell], freeNodes);
      cells := cells[o := cell];
      owner := owner[o := slot];
    }

    /** Hands cells over to another slot, or to nobody. */
    ghost method Adopt(ns: seq<nat>, slot: int)
      requires Valid() && slot != FREE && forall i :: 0 <= i < |ns| ==> ns[i] < |cells| && owner[ns[i]] != FREE
      requires slot < 0 ==> forall i :: 0 <= i < |ns| ==> Blank(cells[ns[i]])
      modifies `owner
      ensures Valid() && |owner| == |old(owner)|
      ensures forall c :: 0 <= c < |owner| ==> owner[c] == if c in ns then slot else old(owner[c])
    {
      var was := owner;
      owner := seq(|was|, c requires 0 <= c < |was| => if c in ns then slot else was[c]);
    }

    // ----- the other actions -----

    /** A header takes over the list that starts at `first`; its closing bracket is dropped. */
    method TakeOver(header: nat, first: nat, ghost close: nat, ghost slot: nat, ghost list: seq<nat>,
        ghost chain: Chain)
      requires Valid() && header < |cells| && Blank(cells[header]) && owner[header] == slot
      requires Holds(cells, list, first, Chained(chain)) && Owned(owner, list, slot + 1)
      requires close < |cells| && owner[close] == slot + 2 && Blank(cells[close])
      modifies `cells, `owner
      ensures Valid() && |cells| == |old(cells)|
      ensures Holds(cells, [header] + list, header, Group(old(cells[header].idref), chain))
      ensures forall c :: 0 <= c < |cells| && c != header ==> cells[c] == old(cells[c])
      ensures forall c :: 0 <= c < |owner| ==>
        owner[c] == if c == close then LOOSE else if c in list then slot else old(owner[c])
    {
      Set(header, cells[header].(elements := Some(first)), slot);
      Adopt(list, slot);
      Adopt([close], LOOSE);
      assert ([header] + list)[1..] == list;
      ListedFrame(old(cells), cells, list, NewestFirst(chain));
    }

    /** A header of nothing. */
    method TakeNothing(header: nat, ghost close: nat, ghost slot: nat)
      requires Valid() && header < |cells| && Blank(cells[header]) && owner[header] == slot
      requires close < |cells| && owner[close] == slot + 1 && Blank(cells[close])
      modifies `cells, `owner
      ensures Valid() && |cells| == |old(cells)|
      ensures Holds(cells, [header], header, Group(old(cells[header].idref), Nil))
      ensures forall c :: 0 <= c < |cells| && c != header ==> cells[c] == old(cells[c])
      ensures forall c :: 0 <= c < |owner| ==> owner[c] == if c == close then LOOSE else old(owner[c])
    {
      Set(header, cells[header].(elements := None), slot);
      Adopt([close], LOOSE);
    }

    /** A new item goes in front of the list that starts at `first`. */
    method LinkFront(t: nat, first: nat, ghost slot: nat, ghost list: seq<nat>, ghost chain: Chain, ghost item: Item)
      requires Valid() && t < |cells| && Carries(cells[t], item) && owner[t] == slot + 1
      requires Holds(cells, list, first, Chained(chain)) && Owned(owner, list, slot)
      modifies `cells, `owner
      ensures Valid() && |cells| == |old(cells)|
      ensures Holds(cells, [t] + list, t, Chained(Link(item, chain)))
      ensures forall c :: 0 <= c < |cells| && c != t ==> cells[c] == old(cells[c])
      ensures owner == old(owner)[t := slot]
    {
      PutInFront(cells, t, list, item, NewestFirst(chain));
      Set(t, cells[t].(next := Some(first)), slot);
      assert NewestFirst(Link(item, chain)) == [item] + NewestFirst(chain);
    }

    /** A key and an object become an item, and the cell of the object is given back. */
    method Pair(key: nat, value: nat, ghost slot: nat, ghost name: string, ghost v: Value)
      requires Valid() && key < |cells| && value < |cells| && owner[key] == slot && owner[value] == slot + 1
      requires HoldsObject(cells[key], Str(name)) && HoldsObject(cells[value], v)
      modifies this
      ensures Valid() && |cells| == |old(cells)| && owner == old(owner)[value := FREE]
      ensures Holds(cells, [key], key, Chained(Link(Item(Some(name), v), Nil)))
      ensures forall c :: 0 <= c < |cells| && c != key && c != value ==> cells[c] == old(cells[c])
    {
      Set(key, cells[key].(key := Some(cells[key].obj.value.text), obj := cells[value].obj, next := None), slot);
      Set(value, cells[value].(obj := None), slot + 1);
      FreeObject(value);
      OneListed(cells, key, Item(Some(name), v));
    }

    /** Moves the first cell of a list to the front of the header's elements. */
    method MoveToFront(header: nat, t: nat, ghost slot: nat, ghost ns: seq<nat>, ghost items: seq<Item>,
                       ghost ps: seq<nat>, ghost done: seq<Item>)
      requires Valid() && header < |cells| && ns != [] && t == ns[0] && Listed(cells, ns, items)
        && Listed(cells, ps, done)
      requires header !in ns && header !in ps && (forall i :: 0 <= i < |ns| ==> ns[i] !in ps)
      requires owner[header] == slot && Owned(owner, ns, slot) && cells[header].elements == First(ps)
      modifies `cells
      ensures Valid() && |cells| == |old(cells)|
      ensures Listed(cells, ns[1..], items[1..]) && Listed(cells, [t] + ps, [items[0]] + done)
      ensures cells[header] == old(cells[header]).(elements := Some(t))
      ensures forall c :: 0 <= c < |cells| && c != header && c != t ==> cells[c] == old(cells[c])
    {
      RestListed(cells, ns, items);
      PutInFront(cells, t, ps, items[0], done);
      ghost var before := cells;
      cells := cells[t := cells[t].(next := cells[header].elements)];
      ListedFrame(before, cells, ns[1..], items[1..]);
      ghost var middle := cells;
      cells := cells[header := cells[header].(elements := Some(t))];
      ListedFrame(middle, cells, ns[1..], items[1..]);
      ListedFrame(middle, cells, [t] + ps, [items[0]] + done);
      LinkedFrame(before, cells, freeNodes);
    }

    /** One turn of the reversal. */
    method ReverseOne(header: nat, t: nat, ghost slot: nat, ghost ns: seq<nat>, ghost items: seq<Item>, ghost k: nat,
                      ghost before: seq<Node>) returns (next: Ptr)
      requires Valid() && k < |ns| && t == ns[k] && Reversing(before, cells, header, ns, items, k)
      requires owner[header] == slot && Owned(owner, ns, slot) && Distinct(ns)
      modifies `cells
      ensures Valid() && Reversing(before, cells, header, ns, items, k + 1)
      ensures next == First(ns[k + 1..])
    {
      ghost var more, done := ns[k..], Rev(ns[..k]);
      assert more[1..] == ns[k + 1..] && items[k..][1..] == items[k + 1..];
      assert ns[..k + 1][..k] == ns[..k] && items[..k + 1][..k] == items[..k];
      assert [t] + done == Rev(ns[..k + 1]) && [items[k]] + Rev(items[..k]) == Rev(items[..k + 1]);
      RestListed(cells, more, items[k..]);
      RevKeeps(ns, k);
      next := cells[t].next;
      MoveToFront(header, t, slot, more, items[k..], done, Rev(items[..k]));
    }

    /** The loop with which every builder puts the elements in source order, in place. */
    method ReverseElements(header: nat, ghost slot: nat, ghost ns: seq<nat>, ghost items: seq<Item>)
      requires Valid() && header < |cells| && header !in ns && Listed(cells, ns, items)
      requires owner[header] == slot && Owned(owner, ns, slot) && cells[header].elements == First(ns)
      modifies `cells
      ensures Valid() && |cells| == |old(cells)| && Listed(cells, Rev(ns), Rev(items))
      ensures cells[header] == old(cells[header]).(elements := First(Rev(ns)))
      ensures forall c :: 0 <= c < |cells| && c != header && c !in ns ==> cells[c] == old(cells[c])
    {
      var o := cells[header].elements;
      cells := cells[header := cells[header].(elements := None)];
      LinkedFrame(old(cells), cells, freeNodes);
      ReversalStarts(old(cells), cells, header, ns, items);
      ReverseFrom(header, o, slot, ns, items, old(cells));
      ReversalEnds(old(cells), cells, header, ns, items);
    }

    method ReverseFrom(header: nat, first: Ptr, ghost slot: nat, ghost ns: seq<nat>, ghost items: seq<Item>,
                       ghost before: seq<Node>)
      requires Valid() && first == First(ns) && Reversing(before, cells, header, ns, items, 0)
      requires owner[header] == slot && Owned(owner, ns, slot) && Distinct(ns)
      modifies `cells
      ensures Valid() && Reversing(before, cells, header, ns, items, |ns|)
    {
      var o := first;
      ghost var k: nat := 0;
      assert ns[0..] == ns;
      while o.Some?
        invariant k <= |ns| && o == First(ns[k..])
        invariant Valid() && Reversing(before, cells, header, ns, items, k)
        decreases |ns| - k
      {
        o := ReverseOne(header, o.value, slot, ns, items, k, before);
        k := k + 1;
      }
      assert k == |ns|;
    }

    /** Takes the first cell off a list once its item has been used. */
    method Release(t: nat, ghost slot: nat, ghost ns: seq<nat>, ghost items: seq<Item>) returns (next: Ptr)
      requires Valid() && ns != [] && t == ns[0] && Listed(cells, ns, items) && Owned(owner, ns, slot)
      modifies this
      ensures Valid() && |cells| == |old(cells)| && owner == old(owner)[t := FREE]
      ensures next == First(ns[1..]) && Listed(cells, ns[1..], items[1..]) && Owned(owner, ns[1..], slot)
      ensures forall c :: 0 <= c < |cells| && c != t ==> cells[c] == old(cells[c])
    {
      ghost var before := cells;
      RestListed(cells, ns, items);
      Set(t, cells[t].(obj := None, key := None), slot);
      next := cells[t].next;
      FreeObject(t);
      ListedFrame(before, cells, ns[1..], items[1..]);
    }

    // ----- the builders -----

    /** One turn of a builder's second loop: the next item, and what follows it. */
    method DrainOne(t: nat, ghost d: Drain, ghost k: nat) returns (item: Item, next: Ptr)
      requires Valid() && k < |d.ns| && t == d.ns[k] && Draining(d, cells, owner, k)
      modifies this
      ensures Valid() && Draining(d, cells, owner, k + 1)
      ensures item == d.items[k] && next == At(d.ns, k + 1)
    {
      ghost var cells0, owner0 := cells, owner;
      StillListed(d, cells, owner, k);
      item := Item(cells[t].key, cells[t].obj.value);
      next := Release(t, d.slot, d.ns[k..], d.items[k..]);
      DrainingOn(d, cells0, owner0, cells, owner, k);
    }

    /** Puts the elements of a group in source order. */
    method Prepare(header: nat, ghost slot: nat, ghost ns: seq<nat>, ghost chain: Chain)
        returns (first: Ptr, ghost d: Drain)
      requires Valid() && header < |cells| && Owned(owner, ns, slot)
      requires Holds(cells, ns, header, Group(cells[header].idref, chain))
      modifies `cells
      ensures Valid() && d.items == OldestFirst(chain) && first == At(d.ns, 0)
      ensures Draining(d, cells, owner, 0) && Prepared(d, old(cells), owner, header, slot, ns)
    {
      ghost var tail := ns[1..];
      assert forall i :: 0 <= i < |tail| ==> tail[i] == ns[i + 1];
      ReverseElements(header, slot, tail, NewestFirst(chain));
      RevIsOldestFirst(chain);
      d := Drain(cells, owner, header, slot, Rev(tail), OldestFirst(chain));
      first := cells[header].elements;
      RevMembers(tail);
      DrainingStarts(d, tail);
    }

    method BuildCFArray(h: nat, ghost slot: nat, ghost ns: seq<nat>, ghost chain: Chain) returns (v: Value)
      requires Valid() && h < |cells| && Owned(owner, ns, slot)
      requires Holds(cells, ns, h, Group(cells[h].idref, chain))
      modifies this
      ensures Valid() && v == Array(Values(OldestFirst(chain)))
      ensures Built(old(cells), old(owner), cells, owner, h, ns, slot, v)
    {
      var o, d := Prepare(h, slot, ns, chain);
      var elems := DrainArray(o, d);
      v := Array(elems);
      Finish(h, v, slot, ns, d, old(cells), old(owner));
    }

    method DrainArray(first: Ptr, ghost d: Drain) returns (elems: seq<Value>)
      requires Valid() && first == At(d.ns, 0) && Draining(d, cells, owner, 0)
      modifies this
      ensures Valid() && Draining(d, cells, owner, |d.ns|) && elems == Values(d.items)
    {
      var o, item := first, Item(None, Bool(false));
      elems := [];
      ghost var k: nat := 0;
      assert d.items[..0] == [];
      while o.Some?
        invariant k <= |d.ns| && o == At(d.ns, k) && Valid() && Draining(d, cells, owner, k)
        invariant elems == Values(d.items[..k])
        decreases |d.ns| - k
      {
        assert d.items[..k + 1][..k] == d.items[..k];
        item, o := DrainOne(o.value, d, k);
        elems := elems + [item.obj];
        k := k + 1;
      }
      assert d.items[..k] == d.items;
    }

    method BuildCFSet(h: nat, ghost slot: nat, ghost ns: seq<nat>, ghost chain: Chain) returns (v: Value)
      requires Valid() && h < |cells| && Owned(owner, ns, slot)
      requires Holds(cells, ns, h, Group(cells[h].idref, chain))
      modifies this
      ensures Valid() && v == PlistValues.Set(BuiltSet(OldestFirst(chain)))
      ensures Built(old(cells), old(owner), cells, owner, h, ns, slot, v)
    {
      var o, d := Prepare(h, slot, ns, chain);
      var members := DrainSet(o, d);
      v := PlistValues.Set(members);
      Finish(h, v, slot, ns, d, old(cells), old(owner));
    }

    method DrainSet(first: Ptr, ghost d: Drain) returns (members: seq<Value>)
      requires Valid() && first == At(d.ns, 0) && Draining(d, cells, owner, 0)
      modifies this
      ensures Valid() && Draining(d, cells, owner, |d.ns|) && members == BuiltSet(d.items)
    {
      var o, item := first, Item(None, Bool(false));
      members := [];
      ghost var k: nat := 0;
      assert d.items[..0] == [];
      while o.Some?
        invariant k <= |d.ns| && o == At(d.ns, k) && Valid() && Draining(d, cells, owner, k)
        invariant members == BuiltSet(d.items[..k])
        decreases |d.ns| - k
      {
        assert d.items[..k + 1][..k] == d.items[..k];
        item, o := DrainOne(o.value, d, k);
        members := AddMember(members, item.obj);
        k := k + 1;
      }
      assert d.items[..k] == d.items;
    }

    method BuildCFDictionary(h: nat, ghost slot: nat, ghost ns: seq<nat>, ghost chain: Chain) returns (v: Value)
      requires Valid() && h < |cells| && Owned(owner, ns, slot) && Keyed(chain)
      requires Holds(cells, ns, h, Group(cells[h].idref, chain))
      modifies this
      ensures (KeyedItems(chain); Valid() && v == Dict(BuiltDict(OldestFirst(chain))))
      ensures Built(old(cells), old(owner), cells, owner, h, ns, slot, v)
    {
      KeyedItems(chain);
      var o, d := Prepare(h, slot, ns, chain);
      var entries := DrainDictionary(o, d);
      v := Dict(entries);
      Finish(h, v, slot, ns, d, old(cells), old(owner));
    }

    method DrainDictionary(first: Ptr, ghost d: Drain) returns (entries: seq<Entry>)
      requires Valid() && first == At(d.ns, 0) && Draining(d, cells, owner, 0)
      requires forall i :: 0 <= i < |d.items| ==> d.items[i].key.Some?
      modifies this
      ensures Valid() && Draining(d, cells, owner, |d.ns|) && entries == BuiltDict(d.items)
    {
      var o, item := first, Item(None, Bool(false));
      entries := [];
      ghost var k: nat := 0;
      assert d.items[..0] == [];
      while o.Some?
        invariant k <= |d.ns| && o == At(d.ns, k) && Valid() && Draining(d, cells, owner, k)
        invariant entries == BuiltDict(d.items[..k])
        decreases |d.ns| - k
      {
        assert d.items[..k + 1][..k] == d.items[..k];
        item, o := DrainOne(o.value, d, k);
        entries := SetEntry(entries, item.key.value, item.obj);
        k := k + 1;
      }
      assert d.items[..k] == d.items;
    }

    /** The header becomes the object that was built. */
    method Finish(h: nat, v: Value, ghost slot: nat, ghost ns: seq<nat>, ghost d: Drain,
                  ghost before: seq<Node>, ghost was: seq<int>)
      requires Valid() && Prepared(d, before, was, h, slot, ns) && Draining(d, cells, owner, |d.ns|)
      modifies this
      ensures Valid() && Built(before, was, cells, owner, h, ns, slot, v)
    {
      assert forall c :: c in ns[1..] ==> c in ns;
      assert forall i :: 0 <= i < |ns[1..]| ==> ns[1..][i] in d.ns;
      Set(h, cells[h].(obj := Some(v)), slot);
    }
  }

  lemma RevMembers(ns: seq<nat>)
    requires Distinct(ns)
    ensures forall c :: c in ns <==> c in Rev(ns)
  {
    forall i | 0 <= i < |ns| ensures Rev(ns)[i] == ns[|ns| - 1 - i] && ns[i] == Rev(ns)[|ns| - 1 - i] {
      RevAt(ns, i);
      RevAt(ns, |ns| - 1 - i);
    }
  }

  /** What is in a part of a list is in the list, and its first `k` cells are not among the others. */
  lemma RevKeeps(ns: seq<nat>, k: nat)
    requires Distinct(ns) && k <= |ns|
    ensures forall i :: 0 <= i < |Rev(ns[..k])| ==> Rev(ns[..k])[i] in ns
    ensures forall i :: 0 <= i < |ns[k..]| ==> ns[k..][i] in ns && ns[k..][i] !in Rev(ns[..k])
  {
    forall i | 0 <= i < k ensures Rev(ns[..k])[i] == ns[k - 1 - i] {
      RevAt(ns[..k], i);
    }
  }
}
