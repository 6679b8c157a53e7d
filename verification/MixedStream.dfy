/** Mixed data as a byte stream: the writer zeroes binary leaves out of the tree and appends their content to
    one buffer, with a running list of offsets; the reader puts them back. */
module MixedStream {
  import opened Prelude
  import opened Keys
  import opened DTypes
  import opened MixedForm

  // ----- The traversal: children in order, dictionary members by sorted key -----

  function Arity(v: Value): nat {
    match v
    case List(items) => |items|
    case Dict(members) => |members.Keys|
    case _ => 0
  }

  ghost function Child(v: Value, i: nat): (c: Value)
    requires i < Arity(v)
    ensures c < v
  {
    match v
    case List(items) => items[i]
    case Dict(members) => members[Sorted(members.Keys)[i]]
  }

  /** The contents of the binary leaves of `v`, in traversal order. */
  ghost function Blocks(v: Value): seq<seq<byte>>
    decreases v, Arity(v) + 1
  {
    if v.Leaf? then [v.arr.content] else BlocksFrom(v, 0)
  }

  /** The same for the children of `v` from number `n` on. */
  ghost function BlocksFrom(v: Value, n: nat): seq<seq<byte>>
    requires n <= Arity(v)
    decreases v, Arity(v) - n
  {
    if n == Arity(v) then [] else Blocks(Child(v, n)) + BlocksFrom(v, n + 1)
  }

  /** The leaves of a dictionary are laid out by key, whatever the order of insertion. */
  lemma LeavesByKey(a: Array, b: Array)
    ensures Blocks(Dict(map["b" := Leaf(b), "a" := Leaf(a)])) == [a.content, b.content]
  {
    var members := map["b" := Leaf(b), "a" := Leaf(a)];
    assert members.Keys == {"a", "b"} && "a"[0] < "b"[0];
    assert Listing(["a", "b"], {"a", "b"}) by {
      forall i, j ensures Before(["a", "b"], i, j) {}
    }
    ListingIsUnique(["a", "b"], Sorted({"a", "b"}), {"a", "b"});
    var v := Dict(members);
    assert Arity(v) == 2 && Child(v, 0) == Leaf(a) && Child(v, 1) == Leaf(b);
    assert BlocksFrom(v, 2) == [];
    assert BlocksFrom(v, 1) == [b.content];
    assert BlocksFrom(v, 0) == [a.content] + [b.content];
  }

  /** The tree with a zero in place of every binary leaf. */
  function Zeroed(v: Value): Value {
    match v
    case Scalar(_) => v
    case Leaf(_) => Scalar(Integer(0))
    case List(items) => List(seq(|items|, i requires 0 <= i < |items| => Zeroed(items[i])))
    case Dict(members) => Dict(map k | k in members :: Zeroed(members[k]))
  }

  /** What the JSON encoder makes of NumPy scalars. */
  function PlainAtom(a: Atom): Atom {
    match a
    case NumPyInteger(i) => Integer(i)
    case NumPyNumber(repr) => Number(repr)
    case _ => a
  }

  function Plainly(v: Value): Value {
    match v
    case Scalar(a) => Scalar(PlainAtom(a))
    case Leaf(_) => v
    case List(items) => List(seq(|items|, i requires 0 <= i < |items| => Plainly(items[i])))
    case Dict(members) => Dict(map k | k in members :: Plainly(members[k]))
  }

  /** What a reader makes of a leaf: an array without dimensions comes back as a NumPy scalar. */
  function LoadedArray(a: Array): Array {
    if FormShape(a) == Some([]) then a.(shape := None) else a
  }

  function Loaded(v: Value): Value {
    match v
    case Scalar(_) => v
    case Leaf(a) => Leaf(LoadedArray(a))
    case List(items) => List(seq(|items|, i requires 0 <= i < |items| => Loaded(items[i])))
    case Dict(members) => Dict(map k | k in members :: Loaded(members[k]))
  }

  /** The dtypes of all leaves can be read off their forms again. */
  predicate Portable(v: Value) {
    match v
    case Scalar(_) => true
    case Leaf(a) => Describable(a.dtype)
    case List(items) => forall i | 0 <= i < |items| :: Portable(items[i])
    case Dict(members) => forall k | k in members :: Portable(members[k])
  }

  /** What a container with binary leaves must be for the assertions of the writer to hold. */
  predicate Storable(v: Value) {
    Accepted(v) && Portable(v)
  }

  ghost function Flat(blocks: seq<seq<byte>>): seq<byte> {
    if blocks == [] then [] else blocks[0] + Flat(blocks[1..])
  }

  /** Where each block ends if the first one starts at `start`. */
  ghost function Ends(start: nat, blocks: seq<seq<byte>>): seq<nat>
    decreases |blocks|
  {
    if blocks == [] then [] else [start + |blocks[0]|] + Ends(start + |blocks[0]|, blocks[1..])
  }

  ghost function TotalBytes(v: Value): nat {
    |Flat(Blocks(v))|
  }

  lemma {:induction false} FlatConcat(a: seq<seq<byte>>, b: seq<seq<byte>>)
    ensures Flat(a + b) == Flat(a) + Flat(b)
  {
    if a == [] {
      assert a + b == b;
    } else {
      assert (a + b)[1..] == a[1..] + b;
      FlatConcat(a[1..], b);
    }
  }

  lemma {:induction false} EndsConcat(start: nat, a: seq<seq<byte>>, b: seq<seq<byte>>)
    ensures Ends(start, a + b) == Ends(start, a) + Ends(start + |Flat(a)|, b)
    decreases |a|
  {
    if a == [] {
      assert a + b == b;
    } else {
      assert (a + b)[1..] == a[1..] + b;
      EndsConcat(start + |a[0]|, a[1..], b);
    }
  }

  lemma OneBlock(start: nat, content: seq<byte>)
    ensures Flat([content]) == content && Ends(start, [content]) == [start + |content|]
  {
    assert [content][1..] == [];
  }

  /** The recorded offsets are non-decreasing and cut the buffer exactly into the blocks. */
  lemma {:induction false} EndsPartition(start: nat, blocks: seq<seq<byte>>, i: nat)
    requires i < |blocks|
    ensures |Ends(start, blocks)| == |blocks|
    ensures var marks := [start] + Ends(start, blocks);
            && start <= marks[i] <= marks[i + 1] <= start + |Flat(blocks)|
            && Flat(blocks)[marks[i] - start..marks[i + 1] - start] == blocks[i]
            && (i == |blocks| - 1 ==> marks[i + 1] == start + |Flat(blocks)|)
    decreases |blocks|
  {
    var b, rest := blocks[0], blocks[1..];
    var marks, tail := [start] + Ends(start, blocks), [start + |b|] + Ends(start + |b|, rest);
    assert marks == [start] + tail;
    if rest == [] {
      assert Flat(rest) == [];
    } else if i == 0 {
      EndsPartition(start + |b|, rest, 0);
    } else {
      EndsPartition(start + |b|, rest, i - 1);
      var lo, hi := tail[i - 1] - start, tail[i] - start;
      assert (b + Flat(rest))[lo..hi] == Flat(rest)[lo - |b|..hi - |b|];
    }
  }

  /** Pure-plain data have no binary leaves, so zeroing and loading leave them alone. */
  lemma {:induction false} PlainHasNoLeaves(v: Value)
    requires StorageOf(v) == PurePlain
    ensures Blocks(v) == [] && Zeroed(v) == v && Loaded(v) == v && Portable(v)
    ensures ChildForm(v) == FormOf(v) && (FormOf(v).TypeName? || FormOf(v).storage == None)
    decreases v, Arity(v) + 1
  {
    match v {
      case Scalar(_) =>
      case List(items) =>
        forall i | 0 <= i < |items|
          ensures Zeroed(items[i]) == items[i] && Loaded(items[i]) == items[i] && Portable(items[i])
        {
          PlainHasNoLeaves(items[i]);
        }
        PlainChildrenHaveNoLeaves(v, 0);
      case Dict(members) =>
        forall k | k in members
          ensures Zeroed(members[k]) == members[k] && Loaded(members[k]) == members[k] && Portable(members[k])
        {
          PlainHasNoLeaves(members[k]);
        }
        PlainChildrenHaveNoLeaves(v, 0);
    }
  }

  lemma {:induction false} PlainChildrenHaveNoLeaves(v: Value, n: nat)
    requires StorageOf(v) == PurePlain && n <= Arity(v)
    ensures BlocksFrom(v, n) == []
    decreases v, Arity(v) - n
  {
    if n < Arity(v) {
      assert StorageOf(Child(v, n)) == PurePlain;
      PlainHasNoLeaves(Child(v, n));
      PlainChildrenHaveNoLeaves(v, n + 1);
    }
  }

  /** The form of a list depends on its items through their forms and storages only. */
  lemma ListFormFromItems(a: seq<Value>, b: seq<Value>)
    requires |a| == |b|
    requires forall i | 0 <= i < |a| :: StorageOf(a[i]) == StorageOf(b[i]) && FormOf(a[i]) == FormOf(b[i])
    ensures FormOf(List(a)) == FormOf(List(b)) && StorageOf(List(a)) == StorageOf(List(b))
  {
    var fa := seq(|a|, i requires 0 <= i < |a| => FormOf(a[i]));
    var fb := seq(|b|, i requires 0 <= i < |b| => FormOf(b[i]));
    assert fa == fb;
    assert Uniform(a, fa) == Uniform(b, fb);
    var ca := seq(|a|, i requires 0 <= i < |a| => Annotated(fa[i], StorageOf(a[i])));
    var cb := seq(|b|, i requires 0 <= i < |b| => Annotated(fb[i], StorageOf(b[i])));
    assert ca == cb;
  }

  lemma DictFormFromMembers(a: map<string, Value>, b: map<string, Value>)
    requires a.Keys == b.Keys
    requires forall k | k in a :: StorageOf(a[k]) == StorageOf(b[k]) && FormOf(a[k]) == FormOf(b[k])
    ensures FormOf(Dict(a)) == FormOf(Dict(b)) && StorageOf(Dict(a)) == StorageOf(Dict(b))
  {
    assert FormOf(Dict(a)).properties == FormOf(Dict(b)).properties;
  }

  lemma {:induction false} PlainlyKeepsForm(v: Value)
    ensures StorageOf(Plainly(v)) == StorageOf(v) && FormOf(Plainly(v)) == FormOf(v)
  {
    match v {
      case Scalar(_) =>
      case Leaf(_) =>
      case List(items) =>
        forall i | 0 <= i < |items| { PlainlyKeepsForm(items[i]); }
        ListFormFromItems(Plainly(v).items, items);
      case Dict(members) =>
        var plain := Plainly(v).members;
        forall k | k in members
          ensures StorageOf(plain[k]) == StorageOf(members[k]) && FormOf(plain[k]) == FormOf(members[k])
        {
          PlainlyKeepsForm(members[k]);
        }
        DictFormFromMembers(plain, members);
    }
  }

  lemma {:induction false} PlainlyKeepsLeaves(v: Value)
    ensures Accepted(Plainly(v)) == Accepted(v) && Portable(Plainly(v)) == Portable(v)
  {
    match v {
      case Scalar(_) =>
      case Leaf(_) =>
      case List(items) =>
        var plain := Plainly(v).items;
        forall i | 0 <= i < |items|
          ensures Accepted(plain[i]) == Accepted(items[i]) && Portable(plain[i]) == Portable(items[i])
        {
          PlainlyKeepsLeaves(items[i]);
        }
      case Dict(members) =>
        var plain := Plainly(v).members;
        forall k | k in members
          ensures Accepted(plain[k]) == Accepted(members[k]) && Portable(plain[k]) == Portable(members[k])
        {
          PlainlyKeepsLeaves(members[k]);
        }
    }
  }

  lemma {:induction false} PlainlyKeepsZeros(v: Value)
    ensures Zeroed(Plainly(v)) == Plainly(Zeroed(v))
  {
    match v {
      case Scalar(_) =>
      case Leaf(_) =>
      case List(items) =>
        forall i | 0 <= i < |items| { PlainlyKeepsZeros(items[i]); }
        assert Zeroed(Plainly(v)).items == Plainly(Zeroed(v)).items;
      case Dict(members) =>
        forall k | k in members { PlainlyKeepsZeros(members[k]); }
        assert Zeroed(Plainly(v)).members == Plainly(Zeroed(v)).members;
    }
  }

  lemma PlainChild(v: Value, n: nat)
    requires n < Arity(v)
    ensures n < Arity(Plainly(v)) == Arity(v) && Child(Plainly(v), n) == Plainly(Child(v, n))
  {
    if v.Dict? {
      assert Plainly(v).members.Keys == v.members.Keys;
      assert Sorted(v.members.Keys)[n] in v.members.Keys;
    }
  }

  lemma {:induction false} PlainlyKeepsBlocks(v: Value)
    ensures Blocks(Plainly(v)) == Blocks(v)
    decreases v, Arity(v) + 1
  {
    if !v.Leaf? { PlainlyKeepsBlocksFrom(v, 0); }
  }

  lemma {:induction false} PlainlyKeepsBlocksFrom(v: Value, n: nat)
    requires n <= Arity(v)
    ensures Arity(Plainly(v)) == Arity(v) && BlocksFrom(Plainly(v), n) == BlocksFrom(v, n)
    decreases v, Arity(v) - n
  {
    if n == Arity(v) {
      if v.Dict? { assert Plainly(v).members.Keys == v.members.Keys; }
    } else {
      PlainChild(v, n);
      PlainlyKeepsBlocks(Child(v, n));
      PlainlyKeepsBlocksFrom(v, n + 1);
    }
  }

  /** Converting the NumPy scalars changes neither form nor storage nor binary leaves, and it does not matter
      whether it is done before or after zeroing. */
  lemma PlainlyKeeps(v: Value)
    ensures StorageOf(Plainly(v)) == StorageOf(v) && FormOf(Plainly(v)) == FormOf(v)
    ensures Accepted(Plainly(v)) == Accepted(v) && Portable(Plainly(v)) == Portable(v)
    ensures Zeroed(Plainly(v)) == Plainly(Zeroed(v)) && Blocks(Plainly(v)) == Blocks(v)
  {
    PlainlyKeepsForm(v);
    PlainlyKeepsLeaves(v);
    PlainlyKeepsZeros(v);
    PlainlyKeepsBlocks(v);
  }

  // ----- Sizes -----

  /** `storage` and `form` are those under which the traversals meet `v`. */
  predicate Describes(storage: Storage, form: Form, v: Value) {
    && (storage == StorageOf(v) || (storage == MixedPlain && StorageOf(v) == PurePlain))
    && (form == FormOf(v) || form == ChildForm(v))
    && Accepted(v)
  }

  lemma DescribesItem(storage: Storage, form: Form, v: Value, i: nat)
    requires Describes(storage, form, v) && storage == MixedPlain && v.List? && i < |v.items|
    ensures form.ArrayForm? && (form.itemForms.Identical? || (form.itemForms.Each? && i < |form.itemForms.forms|))
    ensures Describes(ChildStorage(ItemForm(form, i), MixedPlain), ItemForm(form, i), v.items[i])
    ensures ItemForm(form, i) == ChildForm(v.items[i])
  {
    ItemFormIsChildForm(v.items, i);
    DescribesChild(v.items[i]);
  }

  lemma DescribesMember(storage: Storage, form: Form, v: Value, k: string)
    requires Describes(storage, form, v) && storage == MixedPlain && v.Dict? && k in v.members
    ensures form.ObjectForm? && k in form.properties && form.properties[k] == ChildForm(v.members[k])
    ensures Describes(ChildStorage(form.properties[k], MixedPlain), form.properties[k], v.members[k])
  {
    DescribesChild(v.members[k]);
  }

  lemma DescribesChild(w: Value)
    requires Accepted(w)
    ensures Describes(ChildStorage(ChildForm(w), MixedPlain), ChildForm(w), w)
  {
    if StorageOf(w) == PurePlain { PlainHasNoLeaves(w); }
  }

  ghost function SizeSum(members: map<string, Value>, s: set<string>): nat
    requires s <= members.Keys
  {
    if s == {} then 0
    else
      var k :| k in s;
      TotalBytes(members[k]) + SizeSum(members, s - {k})
  }

  lemma {:induction false} SizeSumWithout(members: map<string, Value>, s: set<string>, k: string)
    requires s <= members.Keys && k in s
    ensures SizeSum(members, s) == TotalBytes(members[k]) + SizeSum(members, s - {k})
  {
    var j :| j in s && SizeSum(members, s) == TotalBytes(members[j]) + SizeSum(members, s - {j});
    if j != k {
      SizeSumWithout(members, s - {j}, k);
      SizeSumWithout(members, s - {k}, j);
      assert s - {j} - {k} == s - {k} - {j};
    }
  }

  /** The bytes of a dictionary, added up in any order. */
  lemma {:induction false} SizeSumIsTotal(v: Value, n: nat)
    requires v.Dict? && n <= Arity(v)
    ensures var rest := set k | k in Sorted(v.members.Keys)[n..];
            rest <= v.members.Keys && SizeSum(v.members, rest) == |Flat(BlocksFrom(v, n))|
    decreases Arity(v) - n
  {
    var keys := Sorted(v.members.Keys);
    var rest := set k | k in keys[n..];
    assert forall k :: k in rest ==> k in keys;
    if n < Arity(v) {
      var k := keys[n];
      assert keys[n..] == [k] + keys[n + 1..];
      assert k !in keys[n + 1..] by {
        forall j | n < j < |keys| ensures keys[j] != k { SortedIsStrict(v.members.Keys, n, j); }
      }
      var later := keys[n + 1..];
      assert rest - {k} == (set j | j in later);
      SizeSumWithout(v.members, rest, k);
      SizeSumIsTotal(v, n + 1);
      FlatConcat(Blocks(Child(v, n)), BlocksFrom(v, n + 1));
    }
  }

  lemma DictTotal(v: Value)
    requires v.Dict?
    ensures SizeSum(v.members, v.members.Keys) == TotalBytes(v)
  {
    SizeSumIsTotal(v, 0);
    assert (set k | k in Sorted(v.members.Keys)[0..]) == v.members.Keys;
  }

  /** `get_buffersize`: the size read off the form alone. */
  method BufferSize(storage: Storage, form: Form, ghost v: Value) returns (n: nat)
    requires Describes(storage, form, v)
    ensures n == TotalBytes(v)
    decreases v
  {
    if StorageOf(v) == PurePlain { PlainHasNoLeaves(v); }
    if storage == PurePlain {
      return 0;
    }
    match form {
      case BinaryForm(typedef, shape, _) =>
        OneBlock(0, v.arr.content);
        DescriptionIsReadBack(v.arr.dtype);
        return Bytesize(typedef) * Extent(shape);
      case TypeName(_) =>
        return 0;
      case ObjectForm(properties, _) =>
        n := 0;
        var rest := properties.Keys;
        while rest != {}
          invariant rest <= properties.Keys == v.members.Keys
          invariant n + SizeSum(v.members, rest) == SizeSum(v.members, v.members.Keys)
          decreases rest
        {
          var k :| k in rest;
          DescribesMember(storage, form, v, k);
          SizeSumWithout(v.members, rest, k);
          var m := BufferSize(ChildStorage(properties[k], storage), properties[k], v.members[k]);
          n := n + m;
          rest := rest - {k};
        }
        DictTotal(v);
      case ArrayForm(_, length, _) =>
        n := 0;
        for i := 0 to length
          invariant length == |v.items| && n + |Flat(BlocksFrom(v, i))| == TotalBytes(v)
        {
          DescribesItem(storage, form, v, i);
          FlatConcat(Blocks(Child(v, i)), BlocksFrom(v, i + 1));
          var m := BufferSize(ChildStorage(ItemForm(form, i), storage), ItemForm(form, i), v.items[i]);
          n := n + m;
        }
    }
  }

  /** `get_buffersize_debug`: the size read off the data. `None` stands for the failed assertion that the dtype
      of a leaf is the one that its form describes. */
  method BufferSizeDebug(data: Value, storage: Storage, form: Form) returns (n: Option<nat>)
    requires Describes(storage, form, data)
    ensures n == if Portable(data) then Some(TotalBytes(data)) else None
    decreases data, 1
  {
    if StorageOf(data) == PurePlain { PlainHasNoLeaves(data); }
    if storage == PurePlain {
      return Some(0);
    }
    match data {
      case Leaf(a) =>
        OneBlock(0, a.content);
        DescriptionIffDescribable(a.dtype);
        return if FormToDtype(form.typedef) == Some(a.dtype) then Some(|a.content|) else None;
      case Scalar(_) =>
        return Some(0);
      case Dict(_) =>
        n := DictSizeDebug(data, storage, form);
      case List(_) =>
        n := ListSizeDebug(data, storage, form);
    }
  }

  method DictSizeDebug(data: Value, storage: Storage, form: Form) returns (n: Option<nat>)
    requires data.Dict? && storage == MixedPlain && Describes(storage, form, data)
    ensures n == if Portable(data) then Some(TotalBytes(data)) else None
    decreases data, 0
  {
    var members := data.members;
    var total, rest := 0, members.Keys;
    while rest != {}
      invariant rest <= members.Keys
      invariant total + SizeSum(members, rest) == SizeSum(members, members.Keys)
      invariant forall k :: k in members && k !in rest ==> Portable(members[k])
      decreases rest
    {
      var k :| k in rest;
      DescribesMember(storage, form, data, k);
      SizeSumWithout(members, rest, k);
      var m := BufferSizeDebug(members[k], ChildStorage(form.properties[k], storage), form.properties[k]);
      if m.None? {
        return None;
      }
      total, rest := total + m.value, rest - {k};
    }
    DictTotal(data);
    return Some(total);
  }

  method ListSizeDebug(data: Value, storage: Storage, form: Form) returns (n: Option<nat>)
    requires data.List? && storage == MixedPlain && Describes(storage, form, data)
    ensures n == if Portable(data) then Some(TotalBytes(data)) else None
    decreases data, 0
  {
    var items := data.items;
    var total := 0;
    for i := 0 to |items|
      invariant total + |Flat(BlocksFrom(data, i))| == TotalBytes(data)
      invariant forall j :: 0 <= j < i ==> Portable(items[j])
    {
      DescribesItem(storage, form, data, i);
      FlatConcat(Blocks(Child(data, i)), BlocksFrom(data, i + 1));
      var m := BufferSizeDebug(items[i], ChildStorage(ItemForm(form, i), storage), ItemForm(form, i));
      if m.None? {
        return None;
      }
      total := total + m.value;
    }
    return Some(total);
  }

  // ----- Writing -----

  /** The two things that a traversal appends to: the offset list and the preallocated byte buffer. */
  class Stream {
    var offsets: seq<nat>
    const buffer: array<byte>

    constructor (size: nat)
      ensures offsets == [0] && buffer.Length == size && fresh(buffer)
    {
      offsets := [0];
      buffer := new byte[size];
    }

    /** `buffer[offset : offset + size] = content` */
    method CopyIn(content: seq<byte>, offset: nat)
      requires offset + |content| <= buffer.Length
      modifies buffer
      ensures Laid(buffer[..], old(buffer[..]), offset, content)
    {
      for i := 0 to |content|
        invariant Laid(buffer[..], old(buffer[..]), offset, content[..i])
      {
        buffer[offset + i] := content[i];
      }
    }
  }

  /** `content` has been laid over `before` at `offset`. */
  ghost predicate Laid(now: seq<byte>, before: seq<byte>, offset: nat, content: seq<byte>) {
    offset + |content| <= |before| && now == before[..offset] + content + before[offset + |content|..]
  }

  /** The state of a traversal that started with `before` and `offsets0` at `start`, when the children of
      `v` before number `n` have been written. */
  ghost predicate Progress(v: Value, n: nat, start: nat, before: seq<byte>, offsets0: seq<nat>,
                           pos: nat, now: seq<byte>, offsets: seq<nat>)
  {
    && n <= Arity(v) && start <= pos <= |now| == |before|
    && now[..start] == before[..start] && now[pos..] == before[pos..]
    && now[start..pos] + Flat(BlocksFrom(v, n)) == Flat(Blocks(v))
    && offsets + Ends(pos, BlocksFrom(v, n)) == offsets0 + Ends(start, Blocks(v))
  }

  lemma ProgressStart(v: Value, start: nat, before: seq<byte>, offsets0: seq<nat>)
    requires !v.Leaf? && start <= |before|
    ensures Progress(v, 0, start, before, offsets0, start, before, offsets0)
  {
    assert before[start..start] == [];
  }

  lemma ProgressFits(v: Value, n: nat, start: nat, before: seq<byte>, offsets0: seq<nat>, pos: nat, now: seq<byte>,
                     offsets: seq<nat>)
    requires Progress(v, n, start, before, offsets0, pos, now, offsets) && n < Arity(v)
    requires start + TotalBytes(v) <= |before|
    ensures pos + TotalBytes(Child(v, n)) <= |now|
  {
    FlatConcat(Blocks(Child(v, n)), BlocksFrom(v, n + 1));
  }

  lemma ProgressStep(v: Value, n: nat, start: nat, before: seq<byte>, offsets0: seq<nat>, pos: nat, now: seq<byte>,
                     offsets: seq<nat>, pos': nat, now': seq<byte>, offsets': seq<nat>)
    requires Progress(v, n, start, before, offsets0, pos, now, offsets) && n < Arity(v)
    requires pos' == pos + TotalBytes(Child(v, n))
    requires Laid(now', now, pos, Flat(Blocks(Child(v, n))))
    requires offsets' == offsets + Ends(pos, Blocks(Child(v, n)))
    ensures Progress(v, n + 1, start, before, offsets0, pos', now', offsets')
  {
    var b, rest := Blocks(Child(v, n)), BlocksFrom(v, n + 1);
    FlatConcat(b, rest);
    EndsConcat(pos, b, rest);
    LaidNext(now', now, start, pos, Flat(b));
    Regroup(now[start..pos], Flat(b), Flat(rest));
    Regroup(offsets, Ends(pos, b), Ends(pos + |Flat(b)|, rest));
  }

  lemma Regroup<T>(a: seq<T>, b: seq<T>, c: seq<T>)
    ensures a + b + c == a + (b + c)
  {
  }

  lemma LaidNext(now: seq<byte>, before: seq<byte>, start: nat, pos: nat, content: seq<byte>)
    requires start <= pos && Laid(now, before, pos, content)
    ensures var pos' := pos + |content|;
            && pos' <= |now| == |before| && now[..start] == before[..start] && now[pos'..] == before[pos'..]
            && now[start..pos'] == before[start..pos] + content
  {
  }

  lemma ProgressDone(v: Value, start: nat, before: seq<byte>, offsets0: seq<nat>, pos: nat, now: seq<byte>,
                     offsets: seq<nat>)
    requires Progress(v, Arity(v), start, before, offsets0, pos, now, offsets)
    ensures pos == start + TotalBytes(v) && Laid(now, before, start, Flat(Blocks(v)))
    ensures offsets == offsets0 + Ends(start, Blocks(v))
  {
    assert now == now[..start] + now[start..pos] + now[pos..];
  }

  /** `_to_stream`. A returned size means that `data` was a binary leaf, which the caller replaces by zero;
      otherwise `zeroed` is the tree after the replacements inside it. */
  method Write(data: Value, storage: Storage, form: Form, out: Stream, offset: nat)
    returns (zeroed: Value, size: Option<nat>, offset': nat)
    requires Describes(storage, form, data)
    requires offset + TotalBytes(data) <= out.buffer.Length
    modifies out, out.buffer
    ensures offset' == offset + TotalBytes(data)
    ensures Laid(out.buffer[..], old(out.buffer[..]), offset, Flat(Blocks(data)))
    ensures out.offsets == old(out.offsets) + Ends(offset, Blocks(data))
    ensures size.Some? <==> data.Leaf?
    ensures size.None? ==> zeroed == Zeroed(data)
    decreases data, 1
  {
    if StorageOf(data) == PurePlain { PlainHasNoLeaves(data); }
    if storage == PurePlain {
      return data, None, offset;
    }
    match data {
      case Leaf(a) =>
        OneBlock(offset, a.content);
        out.CopyIn(a.content, offset);
        offset' := offset + |a.content|;
        out.offsets := out.offsets + [offset'];
        return data, Some(|a.content|), offset';
      case Scalar(_) =>
        return data, None, offset;
      case Dict(_) =>
        zeroed, offset' := WriteDict(data, storage, form, out, offset);
        size := None;
      case List(_) =>
        zeroed, offset' := WriteList(data, storage, form, out, offset);
        size := None;
    }
  }

  /** One turn of the loop over the children: writes the child, or zeroes it out if it is a binary leaf. */
  method WriteChild(child: Value, inherited: Storage, form: Form, out: Stream, pos: nat)
    returns (zeroed: Value, pos': nat)
    requires Describes(ChildStorage(form, inherited), form, child)
    requires pos + TotalBytes(child) <= out.buffer.Length
    modifies out, out.buffer
    ensures pos' == pos + TotalBytes(child)
    ensures Laid(out.buffer[..], old(out.buffer[..]), pos, Flat(Blocks(child)))
    ensures out.offsets == old(out.offsets) + Ends(pos, Blocks(child))
    ensures zeroed == Zeroed(child)
    decreases child, 2
  {
    var size;
    zeroed, size, pos' := Write(child, ChildStorage(form, inherited), form, out, pos);
    if size.Some? {
      zeroed := Scalar(Integer(0));
    }
  }

  /** The members zeroed, except for those under the keys in `todo`. */
  ghost function PartlyZeroed(members: map<string, Value>, todo: set<string>): map<string, Value> {
    map k | k in members :: if k in todo then members[k] else Zeroed(members[k])
  }

  lemma PartlyZeroedStep(members: map<string, Value>, todo: set<string>, k: string)
    requires k in todo && todo <= members.Keys
    ensures PartlyZeroed(members, todo)[k] == members[k]
    ensures PartlyZeroed(members, todo)[k := Zeroed(members[k])] == PartlyZeroed(members, todo - {k})
  {
  }

  lemma PartlyZeroedEnds(members: map<string, Value>)
    ensures PartlyZeroed(members, members.Keys) == members
    ensures Dict(PartlyZeroed(members, {})) == Zeroed(Dict(members))
  {
    assert PartlyZeroed(members, {}) == Zeroed(Dict(members)).members;
  }

  /** `todo` is what is left of the sorted keys from number `n` on. */
  ghost predicate Remaining(s: set<string>, n: nat, todo: set<string>) {
    && n <= |s| && todo <= s && |todo| == |s| - n
    && forall j :: n <= j < |s| ==> Sorted(s)[j] in todo
  }

  lemma RemainingStep(s: set<string>, n: nat, todo: set<string>)
    requires Remaining(s, n, todo) && n < |s|
    ensures Sorted(s)[n] in todo && Remaining(s, n + 1, todo - {Sorted(s)[n]})
  {
    DistinctKeys(s, n);
  }

  /** What one turn of the loop over the sorted keys finds, and what it leaves. */
  lemma MemberTurn(data: Value, storage: Storage, form: Form, n: nat, todo: set<string>)
    requires data.Dict? && storage == MixedPlain && Describes(storage, form, data)
    requires n < |data.members| && Remaining(data.members.Keys, n, todo)
    ensures var m := data.members;
      var k := Sorted(m.Keys)[n];
      && k in m && k in todo && m[k] == Child(data, n)
      && form.ObjectForm? && k in form.properties
      && Describes(ChildStorage(form.properties[k], storage), form.properties[k], m[k])
      && Remaining(m.Keys, n + 1, todo - {k})
      && PartlyZeroed(m, todo)[k] == m[k]
      && PartlyZeroed(m, todo)[k := Zeroed(m[k])] == PartlyZeroed(m, todo - {k})
  {
    var k := Sorted(data.members.Keys)[n];
    assert k in Sorted(data.members.Keys);
    DescribesMember(storage, form, data, k);
    RemainingStep(data.members.Keys, n, todo);
    PartlyZeroedStep(data.members, todo, k);
  }

  method WriteDict(data: Value, storage: Storage, form: Form, out: Stream, offset: nat)
    returns (zeroed: Value, offset': nat)
    requires data.Dict? && storage == MixedPlain && Describes(storage, form, data)
    requires offset + TotalBytes(data) <= out.buffer.Length
    modifies out, out.buffer
    ensures offset' == offset + TotalBytes(data)
    ensures Laid(out.buffer[..], old(out.buffer[..]), offset, Flat(Blocks(data)))
    ensures out.offsets == old(out.offsets) + Ends(offset, Blocks(data))
    ensures zeroed == Zeroed(data)
    decreases data, 0
  {
    ghost var before, offsets0 := out.buffer[..], out.offsets;
    var members := data.members;
    var keys := Sort(members.Keys);
    var myData := members;
    ghost var todo := members.Keys;
    PartlyZeroedEnds(members);
    offset' := offset;
    ProgressStart(data, offset, before, offsets0);
    for n := 0 to |keys|
      invariant Progress(data, n, offset, before, offsets0, offset', out.buffer[..], out.offsets)
      invariant Remaining(members.Keys, n, todo) && myData == PartlyZeroed(members, todo)
    {
      var k := keys[n];
      MemberTurn(data, storage, form, n, todo);
      var item;
      ghost var pos, now, offsets := offset', out.buffer[..], out.offsets;
      ProgressFits(data, n, offset, before, offsets0, pos, now, offsets);
      item, offset' := WriteChild(myData[k], storage, form.properties[k], out, offset');
      ProgressStep(data, n, offset, before, offsets0, pos, now, offsets, offset', out.buffer[..], out.offsets);
      myData := myData[k := item];
      todo := todo - {k};
    }
    ProgressDone(data, offset, before, offsets0, offset', out.buffer[..], out.offsets);
    assert todo == {};
    zeroed := Dict(myData);
  }

  method WriteList(data: Value, storage: Storage, form: Form, out: Stream, offset: nat)
    returns (zeroed: Value, offset': nat)
    requires data.List? && storage == MixedPlain && Describes(storage, form, data)
    requires offset + TotalBytes(data) <= out.buffer.Length
    modifies out, out.buffer
    ensures offset' == offset + TotalBytes(data)
    ensures Laid(out.buffer[..], old(out.buffer[..]), offset, Flat(Blocks(data)))
    ensures out.offsets == old(out.offsets) + Ends(offset, Blocks(data))
    ensures zeroed == Zeroed(data)
    decreases data, 0
  {
    ghost var before, offsets0 := out.buffer[..], out.offsets;
    var items := data.items;
    var myData := items;
    offset' := offset;
    ProgressStart(data, offset, before, offsets0);
    for n := 0 to |items|
      invariant Progress(data, n, offset, before, offsets0, offset', out.buffer[..], out.offsets)
      invariant |myData| == |items|
      invariant forall j :: 0 <= j < |items| ==> myData[j] == if j < n then Zeroed(items[j]) else items[j]
    {
      DescribesItem(storage, form, data, n);
      var item;
      ghost var pos, now, offsets := offset', out.buffer[..], out.offsets;
      ProgressFits(data, n, offset, before, offsets0, pos, now, offsets);
      item, offset' := WriteChild(myData[n], storage, ItemForm(form, n), out, offset');
      ProgressStep(data, n, offset, before, offsets0, pos, now, offsets, offset', out.buffer[..], out.offsets);
      myData := myData[n := item];
    }
    ProgressDone(data, offset, before, offsets0, offset', out.buffer[..], out.offsets);
    assert myData == Zeroed(data).items;
    zeroed := List(myData);
  }

  lemma DistinctKeys(s: set<string>, n: nat)
    requires n < |s|
    ensures forall j :: 0 <= j < |s| && j != n ==> Sorted(s)[j] != Sorted(s)[n]
  {
    forall j | 0 <= j < |s| && j != n ensures Sorted(s)[j] != Sorted(s)[n] {
      if j < n { SortedIsStrict(s, j, n); } else { SortedIsStrict(s, n, j); }
    }
  }
}
