/** Reading mixed data back: the traversal that puts the binary leaves into the tree again. */
module MixedCodec {
  import opened Prelude
  import opened Keys
  import opened DTypes
  import opened MixedForm
  import opened MixedStream

  // ----- Reading -----

  /** What the writer leaves for a child `w` whose first block starts at `start`, with `tail` for later. */
  ghost predicate Awaits(w: Value, data: Value, offsets: seq<nat>, buffer: seq<byte>, start: nat, tail: seq<nat>) {
    && Storable(w) && data == Zeroed(w)
    && offsets == [start] + Ends(start, Blocks(w)) + tail
    && start + TotalBytes(w) <= |buffer| && buffer[start..start + TotalBytes(w)] == Flat(Blocks(w))
  }

  /** The same for what is left of `v` from child `n` on. */
  ghost predicate AwaitsFrom(v: Value, n: nat, offsets: seq<nat>, buffer: seq<byte>, end: nat, tail: seq<nat>,
                             pos: nat) {
    && n <= Arity(v) && pos + |Flat(BlocksFrom(v, n))| == end <= |buffer|
    && offsets == [pos] + Ends(pos, BlocksFrom(v, n)) + tail
    && buffer[pos..end] == Flat(BlocksFrom(v, n))
  }

  /** The stretch of the input that belongs to child `n`, and the state after it. */
  lemma AwaitsStep(v: Value, n: nat, data: Value, offsets: seq<nat>, buffer: seq<byte>, end: nat, tail: seq<nat>,
                   pos: nat)
    requires AwaitsFrom(v, n, offsets, buffer, end, tail, pos) && n < Arity(v)
    requires Storable(Child(v, n)) && data == Zeroed(Child(v, n))
    ensures var w := Child(v, n);
            var pos' := pos + TotalBytes(w);
            var tail' := Ends(pos', BlocksFrom(v, n + 1)) + tail;
            && Awaits(w, data, offsets, buffer, pos, tail')
            && AwaitsFrom(v, n + 1, [pos'] + tail', buffer, end, tail, pos')
  {
    var b, rest := Blocks(Child(v, n)), BlocksFrom(v, n + 1);
    FlatConcat(b, rest);
    EndsConcat(pos, b, rest);
    CutBytes(buffer, pos, end, Flat(b), Flat(rest));
    CutMarks(pos, Ends(pos, b), Ends(pos + |Flat(b)|, rest), tail);
  }

  lemma CutBytes(buffer: seq<byte>, pos: nat, end: nat, first: seq<byte>, rest: seq<byte>)
    requires pos <= end <= |buffer| && buffer[pos..end] == first + rest
    ensures var mid := pos + |first|; mid <= end && buffer[pos..mid] == first && buffer[mid..end] == rest
  {
    var mid := pos + |first|;
    assert |buffer[pos..end]| == end - pos;
    assert buffer[pos..mid] == buffer[pos..end][..|first|];
    assert buffer[mid..end] == buffer[pos..end][|first|..];
  }

  lemma CutMarks(pos: nat, first: seq<nat>, rest: seq<nat>, tail: seq<nat>)
    ensures [pos] + (first + rest) + tail == [pos] + first + (rest + tail)
  {
  }

  lemma AwaitsDone(v: Value, offsets: seq<nat>, buffer: seq<byte>, end: nat, tail: seq<nat>, pos: nat)
    requires AwaitsFrom(v, Arity(v), offsets, buffer, end, tail, pos)
    ensures offsets == [end] + tail
  {
  }

  lemma AwaitsStart(v: Value, data: Value, offsets: seq<nat>, buffer: seq<byte>, start: nat, tail: seq<nat>)
    requires Awaits(v, data, offsets, buffer, start, tail) && !v.Leaf?
    ensures AwaitsFrom(v, 0, offsets, buffer, start + TotalBytes(v), tail, start)
  {
  }

  /** The input of a reader at a container `v` with binary leaves. */
  ghost predicate Expected(v: Value, data: Value, form: Form, offsets: seq<nat>, buffer: seq<byte>, start: nat,
                           tail: seq<nat>) {
    && StorageOf(v) == MixedPlain && (form == FormOf(v) || form == ChildForm(v))
    && Awaits(v, data, offsets, buffer, start, tail)
  }

  /** Form, value and zeroed tree are of one kind. */
  lemma SameShape(v: Value, data: Value, form: Form, offsets: seq<nat>, buffer: seq<byte>, start: nat, tail: seq<nat>)
    requires Expected(v, data, form, offsets, buffer, start, tail)
    ensures form.ObjectForm? <==> data.Dict?
    ensures form.ArrayForm? <==> data.List?
    ensures form.ObjectForm? || form.ArrayForm?
  {
  }

  /** `_load_from_buffer`; `None` stands for a failed assertion. */
  method LoadFromBuffer(typedef: Typedef, shape: Option<seq<nat>>, buffer: seq<byte>, offset: nat,
                        size: int) returns (r: Option<Array>)
    ensures r.Some? <==> FormToDtype(typedef).Some? && offset + size <= |buffer| &&
                         ItemSize(FormToDtype(typedef).value) * Extent(shape) == size
    ensures r.Some? ==>
      r.value == LoadedArray(Array(FormToDtype(typedef).value, shape, buffer[offset..offset + size]))
  {
    var dtype := FormToDtype(typedef);
    if dtype.None? || ItemSize(dtype.value) * Extent(shape) != size || size < 0 || offset + size > |buffer| {
      return None;
    }
    var content := buffer[offset..offset + size];
    return Some(Array(dtype.value, if shape == Some([]) then None else shape, content));
  }

  /** Form, offsets and buffer where the writer has left a leaf. */
  lemma LeafExpected(form: Form, offsets: seq<nat>, buffer: seq<byte>, w: Value, start: nat, tail: seq<nat>)
    requires w.Leaf? && form == ChildForm(w) && Awaits(w, Zeroed(w), offsets, buffer, start, tail)
    ensures form.BinaryForm? && FormToDtype(form.typedef) == Some(w.arr.dtype)
    ensures |offsets| >= 2 && offsets[1..] == [start + TotalBytes(w)] + tail
    ensures offsets[0] == start && offsets[1] == start + ItemSize(w.arr.dtype) * Extent(form.shape) <= |buffer|
    ensures LoadedArray(Array(w.arr.dtype, form.shape, buffer[offsets[0]..offsets[1]])) == LoadedArray(w.arr)
  {
    var a := w.arr;
    OneBlock(start, a.content);
    DescriptionIffDescribable(a.dtype);
    assert Extent(form.shape) == Extent(a.shape);
  }

  /** The binary case: the next two offsets delimit the content of the leaf; the first of them is used up. */
  method ReadLeaf(form: Form, offsets: seq<nat>, buffer: seq<byte>, ghost w: Value, ghost start: nat,
                  ghost tail: seq<nat>)
    returns (r: Option<(Array, seq<nat>)>)
    ensures w.Leaf? && form == ChildForm(w) && Awaits(w, Zeroed(w), offsets, buffer, start, tail) ==>
              r == Some((LoadedArray(w.arr), [start + TotalBytes(w)] + tail))
  {
    if w.Leaf? && form == ChildForm(w) && Awaits(w, Zeroed(w), offsets, buffer, start, tail) {
      LeafExpected(form, offsets, buffer, w, start, tail);
    }
    if !form.BinaryForm? || |offsets| < 2 || offsets[1] < offsets[0] {
      return None;
    }
    var a := LoadFromBuffer(form.typedef, form.shape, buffer, offsets[0], offsets[1] - offsets[0]);
    return if a.Some? then Some((a.value, offsets[1..])) else None;
  }

  /** `_from_stream_sub` under its guard: one child of a container. `None` stands for an exception; a child
      that is left alone comes back as it was. */
  method ReadChild(child: Option<Value>, form: Form, offsets: seq<nat>, buffer: seq<byte>, ghost w: Value,
                   ghost start: nat, ghost tail: seq<nat>)
    returns (r: Option<(Option<Value>, seq<nat>)>)
    ensures child.Some? && form == ChildForm(w) && Awaits(w, child.value, offsets, buffer, start, tail) ==>
              r == Some((Some(Loaded(w)), [start + TotalBytes(w)] + tail))
    decreases form, 5
  {
    if StorageOf(w) == PurePlain {
      PlainHasNoLeaves(w);
      assert [start] + Ends(start, Blocks(w)) + tail == [start + TotalBytes(w)] + tail;
    }
    if form.TypeName? {
      return Some((child, offsets));
    }
    var storage := if form.storage.Some? then form.storage.value else PurePlain;
    match storage {
      case PurePlain =>
        return Some((child, offsets));
      case PureBinary =>
        var a := ReadLeaf(form, offsets, buffer, w, start, tail);
        return if a.Some? then Some((Some(Leaf(a.value.0)), a.value.1)) else None;
      case MixedPlain =>
        if child.None? {
          return None;
        }
        var c := ReadPlain(child.value, form, offsets, buffer, w, start, tail);
        return if c.Some? then Some((Some(c.value.0), c.value.1)) else None;
    }
  }

  /** `_from_stream_plain`; `None` stands for an exception. */
  method ReadPlain(data: Value, form: Form, offsets: seq<nat>, buffer: seq<byte>, ghost v: Value, ghost start: nat,
                   ghost tail: seq<nat>)
    returns (r: Option<(Value, seq<nat>)>)
    ensures Expected(v, data, form, offsets, buffer, start, tail) ==>
              r == Some((Loaded(v), [start + TotalBytes(v)] + tail))
    decreases form, 4
  {
    match form {
      case ObjectForm(_, _) => r := ReadDict(data, form, offsets, buffer, v, start, tail);
      case ArrayForm(_, _, _) => r := ReadList(data, form, offsets, buffer, v, start, tail);
      case _ => r := None;
    }
  }

  ghost predicate ExpectedNth(v: Value, n: nat, child: Option<Value>, form: Form) {
    n < Arity(v) && Storable(Child(v, n)) && child == Some(Zeroed(Child(v, n))) && form == ChildForm(Child(v, n))
  }

  /** The offsets after child `n`. */
  ghost function TailAfter(v: Value, n: nat, pos: nat, tail: seq<nat>): seq<nat>
    requires n < Arity(v)
  {
    Ends(pos + TotalBytes(Child(v, n)), BlocksFrom(v, n + 1)) + tail
  }

  /** The input of a reader at child `n`. */
  ghost predicate Ready(v: Value, n: nat, child: Option<Value>, form: Form, offsets: seq<nat>, buffer: seq<byte>,
                        end: nat, tail: seq<nat>, pos: nat) {
    ExpectedNth(v, n, child, form) && AwaitsFrom(v, n, offsets, buffer, end, tail, pos)
  }

  lemma ReadyStep(v: Value, n: nat, child: Option<Value>, form: Form, offsets: seq<nat>, buffer: seq<byte>, end: nat,
                  tail: seq<nat>, pos: nat)
    requires Ready(v, n, child, form, offsets, buffer, end, tail, pos)
    ensures var pos' := pos + TotalBytes(Child(v, n));
            && Awaits(Child(v, n), child.value, offsets, buffer, pos, TailAfter(v, n, pos, tail))
            && AwaitsFrom(v, n + 1, [pos'] + TailAfter(v, n, pos, tail), buffer, end, tail, pos')
  {
    AwaitsStep(v, n, child.value, offsets, buffer, end, tail, pos);
  }

  /** One turn of the loop over the children. */
  method ReadNth(child: Option<Value>, form: Form, offsets: seq<nat>, buffer: seq<byte>,
                 ghost v: Value, ghost n: nat, ghost end: nat, ghost tail: seq<nat>, ghost pos: nat)
    returns (r: Option<(Option<Value>, seq<nat>)>, ghost pos': nat)
    ensures Ready(v, n, child, form, offsets, buffer, end, tail, pos) ==>
              r.Some? && r.value.0 == Some(Loaded(Child(v, n)))
              && AwaitsFrom(v, n + 1, r.value.1, buffer, end, tail, pos')
    decreases form, 6
  {
    ghost var w, tail' := v, tail;
    if Ready(v, n, child, form, offsets, buffer, end, tail, pos) {
      ReadyStep(v, n, child, form, offsets, buffer, end, tail, pos);
      w, tail' := Child(v, n), TailAfter(v, n, pos, tail);
    }
    pos' := pos + TotalBytes(w);
    r := ReadChild(child, form, offsets, buffer, w, pos, tail');
  }

  ghost function PartlyLoaded(items: seq<Value>, n: nat): seq<Value> {
    seq(|items|, i requires 0 <= i < |items| => if i < n then Loaded(items[i]) else Zeroed(items[i]))
  }

  /** The first `n` items have been read. */
  ghost predicate ListLoop(v: Value, n: nat, items: seq<Value>, marks: seq<nat>, buffer: seq<byte>, end: nat,
                           tail: seq<nat>, pos: nat)
  {
    v.List? && AwaitsFrom(v, n, marks, buffer, end, tail, pos) && items == PartlyLoaded(v.items, n)
  }

  lemma ListLoopStart(v: Value, data: Value, form: Form, offsets: seq<nat>, buffer: seq<byte>, start: nat,
                      tail: seq<nat>)
    requires form.ArrayForm? && data.List? && Expected(v, data, form, offsets, buffer, start, tail)
    ensures v.List? && form.length == Arity(v)
    ensures ListLoop(v, 0, data.items, offsets, buffer, start + TotalBytes(v), tail, start)
  {
    AwaitsStart(v, data, offsets, buffer, start, tail);
    assert PartlyLoaded(v.items, 0) == Zeroed(v).items;
  }

  lemma ListLoopNext(v: Value, form: Form, n: nat, items: seq<Value>, marks: seq<nat>, buffer: seq<byte>, end: nat,
                     tail: seq<nat>, pos: nat)
    requires ListLoop(v, n, items, marks, buffer, end, tail, pos) && n < Arity(v)
    requires Storable(v) && (form == FormOf(v) || form == ChildForm(v))
    ensures n < |items| && form.ArrayForm?
    ensures form.itemForms.Identical? || (form.itemForms.Each? && n < |form.itemForms.forms|)
    ensures ExpectedNth(v, n, Some(items[n]), ItemForm(form, n))
  {
    ItemFormIsChildForm(v.items, n);
  }

  lemma ListLoopStep(v: Value, n: nat, items: seq<Value>, marks: seq<nat>, buffer: seq<byte>, end: nat,
                     tail: seq<nat>, pos: nat, c: (Option<Value>, seq<nat>), pos': nat)
    requires ListLoop(v, n, items, marks, buffer, end, tail, pos) && n < Arity(v)
    requires c.0 == Some(Loaded(Child(v, n))) && AwaitsFrom(v, n + 1, c.1, buffer, end, tail, pos')
    ensures n < |items| && ListLoop(v, n + 1, items[n := c.0.value], c.1, buffer, end, tail, pos')
  {
    assert PartlyLoaded(v.items, n)[n := Loaded(v.items[n])] == PartlyLoaded(v.items, n + 1);
  }

  lemma ListLoopDone(v: Value, items: seq<Value>, marks: seq<nat>, buffer: seq<byte>, end: nat, tail: seq<nat>,
                     pos: nat)
    requires ListLoop(v, Arity(v), items, marks, buffer, end, tail, pos)
    ensures List(items) == Loaded(v) && marks == [end] + tail
  {
    AwaitsDone(v, marks, buffer, end, tail, pos);
    assert PartlyLoaded(v.items, |v.items|) == Loaded(v).items;
  }

  method ReadList(data: Value, form: Form, offsets: seq<nat>, buffer: seq<byte>, ghost v: Value, ghost start: nat,
                  ghost tail: seq<nat>)
    returns (r: Option<(Value, seq<nat>)>)
    requires form.ArrayForm?
    ensures Expected(v, data, form, offsets, buffer, start, tail) ==>
      r == Some((Loaded(v), [start + TotalBytes(v)] + tail))
    decreases form, 2
  {
    if Expected(v, data, form, offsets, buffer, start, tail) { SameShape(v, data, form, offsets, buffer, start, tail); }
    if !data.List? {
      return None;
    }
    r := ReadItems(data, form, offsets, buffer, v, start, tail);
  }

  /** One turn of the loop over the items. */
  method ReadItem(n: nat, items: seq<Value>, form: Form, marks: seq<nat>, buffer: seq<byte>,
                  ghost expected: bool, ghost v: Value, ghost end: nat, ghost tail: seq<nat>, ghost pos: nat)
    returns (r: Option<(seq<Value>, seq<nat>)>, ghost pos': nat)
    requires form.ArrayForm?
    requires expected ==> ListLoop(v, n, items, marks, buffer, end, tail, pos) && n < Arity(v)
    requires expected ==> Storable(v) && (form == FormOf(v) || form == ChildForm(v))
    ensures expected ==> r.Some? && ListLoop(v, n + 1, r.value.0, r.value.1, buffer, end, tail, pos')
    decreases form, 0
  {
    if expected { ListLoopNext(v, form, n, items, marks, buffer, end, tail, pos); }
    if n >= |items| || form.itemForms.NoItems? || (form.itemForms.Each? && n >= |form.itemForms.forms|) {
      return None, pos;
    }
    var c;
    c, pos' := ReadNth(Some(items[n]), ItemForm(form, n), marks, buffer, v, n, end, tail, pos);
    if c.None? || c.value.0.None? {
      return None, pos';
    }
    if expected { ListLoopStep(v, n, items, marks, buffer, end, tail, pos, c.value, pos'); }
    r := Some((items[n := c.value.0.value], c.value.1));
  }

  /** The loop over the items. */
  method ReadItems(data: Value, form: Form, offsets: seq<nat>, buffer: seq<byte>, ghost v: Value, ghost start: nat,
                   ghost tail: seq<nat>)
    returns (r: Option<(Value, seq<nat>)>)
    requires form.ArrayForm? && data.List?
    ensures Expected(v, data, form, offsets, buffer, start, tail) ==>
      r == Some((Loaded(v), [start + TotalBytes(v)] + tail))
    decreases form, 1
  {
    ghost var expected := Expected(v, data, form, offsets, buffer, start, tail);
    ghost var pos, end := start, start + TotalBytes(v);
    if expected { ListLoopStart(v, data, form, offsets, buffer, start, tail); }
    var items, marks := data.items, offsets;
    for n := 0 to form.length
      invariant expected ==> ListLoop(v, n, items, marks, buffer, end, tail, pos)
    {
      var turn, pos' := ReadItem(n, items, form, marks, buffer, expected, v, end, tail, pos);
      if turn.None? {
        return None;
      }
      items, marks := turn.value.0, turn.value.1;
      pos := pos';
    }
    if expected { ListLoopDone(v, items, marks, buffer, end, tail, pos); }
    r := Some((List(items), marks));
  }

  method ReadDict(data: Value, form: Form, offsets: seq<nat>, buffer: seq<byte>, ghost v: Value, ghost start: nat,
                  ghost tail: seq<nat>)
    returns (r: Option<(Value, seq<nat>)>)
    requires form.ObjectForm?
    ensures Expected(v, data, form, offsets, buffer, start, tail) ==>
      r == Some((Loaded(v), [start + TotalBytes(v)] + tail))
    decreases form, 3
  {
    if Expected(v, data, form, offsets, buffer, start, tail) { SameShape(v, data, form, offsets, buffer, start, tail); }
    if !data.Dict? {
      return None;
    }
    r := ReadEntries(data, form, offsets, buffer, v, start, tail);
  }

  /** Member `k` is still as written, or read already. */
  ghost predicate MemberAt(v: Value, members: map<string, Value>, todo: set<string>, k: string)
    requires v.Dict?
  {
    && (k in members <==> k in v.members)
    && (k in members ==> members[k] == if k in todo then Zeroed(v.members[k]) else Loaded(v.members[k]))
  }

  ghost predicate DictLoop(v: Value, n: nat, members: map<string, Value>, todo: set<string>,
                           marks: seq<nat>, buffer: seq<byte>, end: nat, tail: seq<nat>, pos: nat)
  {
    && v.Dict? && Remaining(v.members.Keys, n, todo)
    && AwaitsFrom(v, n, marks, buffer, end, tail, pos)
    && forall k :: MemberAt(v, members, todo, k)
  }

  lemma DictLoopStart(v: Value, data: Value, form: Form, offsets: seq<nat>, buffer: seq<byte>, start: nat,
                      tail: seq<nat>)
    requires form.ObjectForm? && data.Dict? && Expected(v, data, form, offsets, buffer, start, tail)
    ensures v.Dict? && form.properties.Keys == v.members.Keys
    ensures DictLoop(v, 0, data.members, form.properties.Keys, offsets, buffer, start + TotalBytes(v), tail, start)
  {
    AwaitsStart(v, data, offsets, buffer, start, tail);
    forall k ensures MemberAt(v, data.members, v.members.Keys, k) { }
  }

  lemma DictLoopNext(v: Value, form: Form, n: nat, members: map<string, Value>, todo: set<string>,
                     marks: seq<nat>, buffer: seq<byte>, end: nat, tail: seq<nat>, pos: nat)
    requires DictLoop(v, n, members, todo, marks, buffer, end, tail, pos) && n < Arity(v)
    requires Storable(v) && (form == FormOf(v) || form == ChildForm(v))
    ensures var k := Sorted(v.members.Keys)[n];
            && k in members && form.ObjectForm? && k in form.properties
            && ExpectedNth(v, n, Some(members[k]), form.properties[k])
  {
    RemainingStep(v.members.Keys, n, todo);
    assert MemberAt(v, members, todo, Sorted(v.members.Keys)[n]);
  }

  lemma DictLoopStep(v: Value, n: nat, members: map<string, Value>, todo: set<string>,
                     marks: seq<nat>, buffer: seq<byte>, end: nat, tail: seq<nat>, pos: nat,
                     c: (Option<Value>, seq<nat>), pos': nat)
    requires DictLoop(v, n, members, todo, marks, buffer, end, tail, pos) && n < Arity(v)
    requires c.0 == Some(Loaded(Child(v, n))) && AwaitsFrom(v, n + 1, c.1, buffer, end, tail, pos')
    ensures var k := Sorted(v.members.Keys)[n];
            DictLoop(v, n + 1, members[k := c.0.value], todo - {k}, c.1, buffer, end, tail, pos')
  {
    var key := Sorted(v.members.Keys)[n];
    RemainingStep(v.members.Keys, n, todo);
    var members', todo' := members[key := c.0.value], todo - {key};
    forall k ensures MemberAt(v, members', todo', k) { assert MemberAt(v, members, todo, k); }
  }

  /** One turn of the loop over the sorted keys. */
  method ReadMember(k: string, members: map<string, Value>, form: Form, marks: seq<nat>, buffer: seq<byte>,
                    ghost expected: bool, ghost v: Value, ghost n: nat, ghost todo: set<string>,
                    ghost end: nat, ghost tail: seq<nat>, ghost pos: nat)
    returns (r: Option<(map<string, Value>, seq<nat>)>, ghost pos': nat)
    requires form.ObjectForm? && k in form.properties
    requires expected ==> DictLoop(v, n, members, todo, marks, buffer, end, tail, pos)
    requires expected ==> Storable(v) && (form == FormOf(v) || form == ChildForm(v))
    requires expected ==> n < Arity(v) && k == Sorted(v.members.Keys)[n]
    ensures expected ==> r.Some? && DictLoop(v, n + 1, r.value.0, todo - {k}, r.value.1, buffer, end, tail, pos')
    decreases form, 0
  {
    if expected { DictLoopNext(v, form, n, members, todo, marks, buffer, end, tail, pos); }
    var child := if k in members then Some(members[k]) else None;
    var c;
    c, pos' := ReadNth(child, form.properties[k], marks, buffer, v, n, end, tail, pos);
    if c.None? {
      return None, pos';
    }
    if expected { DictLoopStep(v, n, members, todo, marks, buffer, end, tail, pos, c.value, pos'); }
    r := Some((if c.value.0.Some? then members[k := c.value.0.value] else members, c.value.1));
  }

  /** The loop over the sorted keys. */
  method ReadMembers(data: map<string, Value>, form: Form, offsets: seq<nat>, buffer: seq<byte>,
                     ghost expected: bool, ghost v: Value, ghost end: nat, ghost tail: seq<nat>, ghost start: nat)
    returns (r: Option<(Value, seq<nat>)>)
    requires form.ObjectForm?
    requires expected ==> DictLoop(v, 0, data, form.properties.Keys, offsets, buffer, end, tail, start)
    requires expected ==> Storable(v) && (form == FormOf(v) || form == ChildForm(v))
    requires expected ==> form.properties.Keys == v.members.Keys
    ensures expected ==> r == Some((Loaded(v), [end] + tail))
    decreases form, 1
  {
    ghost var pos, todo := start, form.properties.Keys;
    var members, marks := data, offsets;
    var keys := Sort(form.properties.Keys);
    for n := 0 to |keys|
      invariant expected ==> DictLoop(v, n, members, todo, marks, buffer, end, tail, pos)
    {
      var turn, pos' := ReadMember(keys[n], members, form, marks, buffer, expected, v, n, todo, end, tail, pos);
      if turn.None? {
        return None;
      }
      members, marks := turn.value.0, turn.value.1;
      todo, pos := todo - {keys[n]}, pos';
    }
    if expected { DictLoopDone(v, members, todo, marks, buffer, end, tail, pos); }
    r := Some((Dict(members), marks));
  }

  method ReadEntries(data: Value, form: Form, offsets: seq<nat>, buffer: seq<byte>, ghost v: Value, ghost start: nat,
                     ghost tail: seq<nat>)
    returns (r: Option<(Value, seq<nat>)>)
    requires form.ObjectForm? && data.Dict?
    ensures Expected(v, data, form, offsets, buffer, start, tail) ==>
      r == Some((Loaded(v), [start + TotalBytes(v)] + tail))
    decreases form, 2
  {
    ghost var expected := Expected(v, data, form, offsets, buffer, start, tail);
    if expected { DictLoopStart(v, data, form, offsets, buffer, start, tail); }
    r := ReadMembers(data.members, form, offsets, buffer, expected, v, start + TotalBytes(v), tail, start);
  }

  lemma DictLoopDone(v: Value, members: map<string, Value>, todo: set<string>,
                     marks: seq<nat>, buffer: seq<byte>, end: nat, tail: seq<nat>, pos: nat)
    requires v.Dict? && DictLoop(v, Arity(v), members, todo, marks, buffer, end, tail, pos)
    ensures Dict(members) == Loaded(v) && marks == [end] + tail
  {
    AwaitsDone(v, marks, buffer, end, tail, pos);
    assert todo == {};
    forall k ensures k in members <==> k in v.members { assert MemberAt(v, members, todo, k); }
    forall k | k in members ensures members[k] == Loaded(v.members[k]) { assert MemberAt(v, members, todo, k); }
    assert members == Loaded(v).members;
  }
}
