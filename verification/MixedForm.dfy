/** Mixed data: value trees whose leaves are JSON scalars or binary arrays, and the form (schema) inferred
    from them, with the compression of lists whose items all have the same form. */
module MixedForm {
  import opened Prelude
  import opened Keys
  import opened DTypes

  type byte = x: int | 0 <= x < 256

  /** A float is given by its `repr`, from which Python reads the same float back. The NumPy scalars are the
      integers and the finite numbers, given by what `int` and `float` make of them. */
  datatype Atom =
    | Null | Bool(b: bool) | Integer(i: int) | Number(repr: string) | Text(s: string)
    | NumPyInteger(i: int) | NumPyNumber(repr: string)

  /** A NumPy array (`shape` is `Some`) or one of the NumPy scalars that are kept as binary data (`None`), with
      its raw content. */
  datatype Array = Array(dtype: DType, shape: Option<seq<nat>>, content: seq<byte>)

  /** A tree without shared containers. */
  datatype Value = Scalar(atom: Atom) | List(items: seq<Value>) | Dict(members: map<string, Value>) | Leaf(arr: Array)

  function Extent(shape: Option<seq<nat>>): nat {
    if shape.None? then 1 else Volume(shape.value)
  }

  /** Infinities and NaNs of half, single, double and extended precision: all exponent bits are set. */
  predicate NonFinite(content: seq<byte>) {
    match |content|
    case 2 => content[1] % 128 >= 124
    case 4 => content[3] % 128 == 127 && content[2] >= 128
    case 8 => content[7] % 128 == 127 && content[6] >= 240
    case 16 => content[9] % 128 == 127 && content[8] == 255
    case _ => false
  }

  /** The binary leaves for which `get_form` has a form: all arrays of a supported dtype, and those scalars that
      are not plain. The content has the size that dtype and shape imply, as NumPy sees to. */
  predicate AcceptedLeaf(a: Array) {
    && Supported(a.dtype) && |a.content| == ItemSize(a.dtype) * Extent(a.shape)
    && (a.shape.None? ==>
          a.dtype.Record? || a.dtype.Complex? || a.dtype.Bytes? || (a.dtype.Floating? && NonFinite(a.content)))
  }

  predicate Accepted(v: Value) {
    match v
    case Scalar(_) => true
    case List(items) => forall i | 0 <= i < |items| :: Accepted(items[i])
    case Dict(members) => forall k | k in members :: Accepted(members[k])
    case Leaf(a) => AcceptedLeaf(a)
  }

  // ----- Forms -----

  datatype Storage = PurePlain | MixedPlain | PureBinary

  /** A form is a type name, for scalars, or a dictionary with an optional `storage` entry. */
  datatype Form =
    | TypeName(name: string)
    | ObjectForm(properties: map<string, Form>, storage: Option<Storage>)
    | ArrayForm(itemForms: ItemForms, length: nat, storage: Option<Storage>)
    | BinaryForm(typedef: Typedef, shape: Option<seq<nat>>, storage: Option<Storage>)

  /** The `items` entry: absent for an empty list, one form when `identical` is set, else one per item. */
  datatype ItemForms = NoItems | Identical(item: Form) | Each(forms: seq<Form>)

  function AtomType(a: Atom): string {
    match a
    case Null => "null"
    case Bool(_) => "boolean"
    case Integer(_) | NumPyInteger(_) => "integer"
    case Number(_) | NumPyNumber(_) => "number"
    case Text(_) => "string"
  }

  /** `form["storage"] = storage`, which is done for children that are not pure-plain. Type names stand for
      scalars, which are pure-plain. */
  function Annotated(form: Form, storage: Storage): Form {
    if storage == PurePlain || form.TypeName? then form else form.(storage := Some(storage))
  }

  /** The storage that the traversals use for a child: its own entry, or that of the parent. */
  function ChildStorage(form: Form, inherited: Storage): Storage {
    if form.TypeName? || form.storage.None? then inherited else form.storage.value
  }

  // ----- What inference means -----

  /** A byte string that is not an array is made one, without dimensions. */
  function FormShape(a: Array): Option<seq<nat>> {
    if a.dtype.Bytes? && a.shape.None? then Some([]) else a.shape
  }

  function StorageOf(v: Value): Storage {
    match v
    case Scalar(_) => PurePlain
    case Leaf(_) => PureBinary
    case List(items) =>
      if forall i | 0 <= i < |items| :: StorageOf(items[i]) == PurePlain then PurePlain else MixedPlain
    case Dict(members) =>
      if forall k | k in members :: StorageOf(members[k]) == PurePlain then PurePlain else MixedPlain
  }

  predicate Uniform(items: seq<Value>, forms: seq<Form>)
    requires |forms| == |items|
  {
    forall i | 0 <= i < |items| :: StorageOf(items[i]) == StorageOf(items[0]) && forms[i] == forms[0]
  }

  function FormOf(v: Value): Form {
    match v
    case Scalar(a) => TypeName(AtomType(a))
    case Leaf(a) => BinaryForm(TypedefOf(a.dtype), FormShape(a), None)
    case Dict(members) => ObjectForm(map k | k in members :: Annotated(FormOf(members[k]), StorageOf(members[k])), None)
    case List(items) =>
      var forms := seq(|items|, i requires 0 <= i < |items| => FormOf(items[i]));
      ArrayForm(
        if items == [] then NoItems
        else if Uniform(items, forms) then Identical(Annotated(forms[0], StorageOf(items[0])))
        else Each(seq(|items|, i requires 0 <= i < |items| => Annotated(forms[i], StorageOf(items[i])))),
        |items|, None)
  }

  /** The JSON type of a scalar: NumPy integers are integers, and NumPy floats are numbers. */
  predicate SameType(a: Atom, b: Atom) {
    || (a.Null? && b.Null?) || (a.Bool? && b.Bool?) || (a.Text? && b.Text?)
    || ((a.Integer? || a.NumPyInteger?) && (b.Integer? || b.NumPyInteger?))
    || ((a.Number? || a.NumPyNumber?) && (b.Number? || b.NumPyNumber?))
  }

  /** The form of a scalar is the name of its type in JSON Schema, and tells it from all scalars of other types. */
  lemma ScalarForms(a: Atom, b: Atom)
    ensures a.Null? ==> FormOf(Scalar(a)) == TypeName("null")
    ensures a.Bool? ==> FormOf(Scalar(a)) == TypeName("boolean")
    ensures a.Integer? || a.NumPyInteger? ==> FormOf(Scalar(a)) == TypeName("integer")
    ensures a.Number? || a.NumPyNumber? ==> FormOf(Scalar(a)) == TypeName("number")
    ensures a.Text? ==> FormOf(Scalar(a)) == TypeName("string")
    ensures FormOf(Scalar(a)) == FormOf(Scalar(b)) <==> SameType(a, b)
  {
    assert "boolean"[0] != "integer"[0] && "number"[0] != "string"[0];
    assert |"null"| == 4 && |"boolean"| == |"integer"| == 7 && |"number"| == |"string"| == 6;
  }

  /** The form that a parent records for `v`. */
  function ChildForm(v: Value): Form {
    Annotated(FormOf(v), StorageOf(v))
  }

  predicate HasLeaf(v: Value) {
    match v
    case Scalar(_) => false
    case Leaf(_) => true
    case List(items) => exists i | 0 <= i < |items| :: HasLeaf(items[i])
    case Dict(members) => exists k | k in members :: HasLeaf(members[k])
  }

  /** Binary storage is for leaves on their own, mixed storage for trees that hold a leaf, at any depth. */
  lemma {:induction false} StorageIsExact(v: Value)
    ensures StorageOf(v) == PureBinary <==> v.Leaf?
    ensures StorageOf(v) == PurePlain <==> !HasLeaf(v)
  {
    match v {
      case Scalar(_) =>
      case Leaf(_) =>
      case List(items) =>
        forall i | 0 <= i < |items| ensures StorageOf(items[i]) == PurePlain <==> !HasLeaf(items[i]) {
          StorageIsExact(items[i]);
        }
      case Dict(members) =>
        forall k | k in members ensures StorageOf(members[k]) == PurePlain <==> !HasLeaf(members[k]) {
          StorageIsExact(members[k]);
        }
    }
  }

  /** The form of a list says its length, and one form for all items exactly if they have the same storage and form. */
  lemma ListForms(items: seq<Value>)
    ensures var form := FormOf(List(items));
      && form.ArrayForm? && form.length == |items| && form.storage.None?
      && (form.itemForms.NoItems? <==> items == [])
      && (form.itemForms.Identical? <==>
            items != [] && forall i, j | 0 <= i < |items| && 0 <= j < |items| ::
              StorageOf(items[i]) == StorageOf(items[j]) && FormOf(items[i]) == FormOf(items[j]))
  {
    var forms := seq(|items|, i requires 0 <= i < |items| => FormOf(items[i]));
    if items != [] && Uniform(items, forms) {
      forall i, j | 0 <= i < |items| && 0 <= j < |items|
        ensures StorageOf(items[i]) == StorageOf(items[j]) && FormOf(items[i]) == FormOf(items[j])
      {
        assert forms[i] == forms[0] && forms[j] == forms[0];
      }
    }
  }

  /** The form of a dictionary has a form for each member; a member that is not pure-plain has its storage noted. */
  lemma DictForms(members: map<string, Value>, k: string)
    ensures var form := FormOf(Dict(members));
      && form.ObjectForm? && form.storage.None? && form.properties.Keys == members.Keys
      && (k in members ==> form.properties[k] == ChildForm(members[k]))
    ensures k in members && !members[k].Scalar? ==>
      var noted := ChildForm(members[k]);
      && !noted.TypeName? && noted.(storage := None) == FormOf(members[k])
      && noted.storage == (if HasLeaf(members[k]) then Some(StorageOf(members[k])) else None)
  {
    if k in members {
      StorageIsExact(members[k]);
      assert FormOf(members[k]).TypeName? <==> members[k].Scalar?;
    }
  }

  /** The form recorded for item `i`, compressed or not. */
  function ItemForm(form: Form, i: nat): Form
    requires form.ArrayForm? && (form.itemForms.Identical? || (form.itemForms.Each? && i < |form.itemForms.forms|))
  {
    if form.itemForms.Identical? then form.itemForms.item else form.itemForms.forms[i]
  }

  /** The compression loses nothing: the form of each item can be read off again. */
  lemma ItemFormIsChildForm(items: seq<Value>, i: nat)
    requires i < |items|
    ensures var form := FormOf(List(items));
            && (form.itemForms.Identical? || (form.itemForms.Each? && i < |form.itemForms.forms|))
            && ItemForm(form, i) == ChildForm(items[i])
  {
    var forms := seq(|items|, i requires 0 <= i < |items| => FormOf(items[i]));
    if Uniform(items, forms) {
      assert forms[i] == forms[0];
    }
  }

  // ----- Inference as the source does it -----

  method GetForm(data: Value) returns (storage: Storage, form: Form)
    ensures storage == StorageOf(data) && form == FormOf(data)
    decreases data, 2
  {
    match data {
      case Scalar(a) => storage, form := PurePlain, TypeName(AtomType(a));
      case Leaf(a) =>
        var shape := if a.dtype.Bytes? && a.shape.None? then Some([]) else a.shape;
        storage, form := PureBinary, BinaryForm(TypedefOf(a.dtype), shape, None);
      case Dict(_) => storage, form := GetFormDictPlain(data);
      case List(_) => storage, form := GetFormListPlain(data);
    }
  }

  method GetFormDictPlain(data: Value) returns (storage: Storage, form: Form)
    requires data.Dict?
    ensures storage == StorageOf(data) && form == FormOf(data)
    decreases data, 1
  {
    var members := data.members;
    if members == map[] {
      return PurePlain, ObjectForm(map[], None);
    }
    var props, storages := GetMemberForms(data);
    OnlyPlain(data, storages);
    if storages.Values == {PurePlain} {
      storage := PurePlain;
      assert props == FormOf(data).properties;
    } else {
      storage := MixedPlain;
      props := AnnotateMembers(data, props, storages);
    }
    form := ObjectForm(props, None);
  }

  lemma OnlyPlain(data: Value, storages: map<string, Storage>)
    requires data.Dict? && data.members != map[]
    requires storages == map k | k in data.members :: StorageOf(data.members[k])
    ensures storages.Values == {PurePlain} <==> StorageOf(data) == PurePlain
  {
    forall k | k in data.members ensures StorageOf(data.members[k]) in storages.Values { assert k in storages; }
    if StorageOf(data) == PurePlain {
      var k :| k in data.members;
      assert storages.Values == {storages[k]};
    }
  }

  method GetMemberForms(data: Value) returns (props: map<string, Form>, storages: map<string, Storage>)
    requires data.Dict?
    ensures props == map k | k in data.members :: FormOf(data.members[k])
    ensures storages == map k | k in data.members :: StorageOf(data.members[k])
    decreases data, 0
  {
    props, storages := map[], map[];
    var rest := data.members.Keys;
    while rest != {}
      invariant rest <= data.members.Keys
      invariant props == map k | k in data.members && k !in rest :: FormOf(data.members[k])
      invariant storages == map k | k in data.members && k !in rest :: StorageOf(data.members[k])
      decreases rest
    {
      var k :| k in rest;
      var cstorage, ctypedef := GetForm(data.members[k]);
      props, storages := props[k := ctypedef], storages[k := cstorage];
      rest := rest - {k};
    }
  }

  method AnnotateMembers(data: Value, inferred: map<string, Form>,
                         storages: map<string, Storage>) returns (props: map<string, Form>)
    requires data.Dict?
    requires inferred == map k | k in data.members :: FormOf(data.members[k])
    requires storages == map k | k in data.members :: StorageOf(data.members[k])
    ensures props == FormOf(data).properties
  {
    props := inferred;
    var rest := data.members.Keys;
    while rest != {}
      invariant rest <= data.members.Keys && props.Keys == data.members.Keys
      invariant forall k :: k in props ==>
        props[k] == if k in rest then FormOf(data.members[k]) else ChildForm(data.members[k])
      decreases rest
    {
      var fieldname :| fieldname in rest;
      props := props[fieldname := Annotated(props[fieldname], storages[fieldname])];
      rest := rest - {fieldname};
    }
  }

  ghost function ItemStorages(items: seq<Value>): seq<Storage> {
    seq(|items|, i requires 0 <= i < |items| => StorageOf(items[i]))
  }

  ghost function ItemFormsOf(items: seq<Value>): seq<Form> {
    seq(|items|, i requires 0 <= i < |items| => FormOf(items[i]))
  }

  method GetFormListPlain(data: Value) returns (storage: Storage, form: Form)
    requires data.List?
    ensures storage == StorageOf(data) && form == FormOf(data)
    decreases data, 1
  {
    var items := data.items;
    if items == [] {
      return PurePlain, ArrayForm(NoItems, 0, None);
    }
    var storages, forms := GetItemForms(data);
    ListForm(items, forms);
    ListStorage(items, storages);
    storage := if exists i | 0 <= i < |storages| :: storages[i] != PurePlain then MixedPlain else PurePlain;
    if SomeDiffer(storages) || SomeDiffer(forms) {
      forms := AnnotateItems(data, forms, storages);
      form := ArrayForm(Each(forms), |items|, None);
    } else {
      form := ArrayForm(Identical(Annotated(forms[0], storages[0])), |items|, None);
    }
  }

  lemma ListStorage(items: seq<Value>, storages: seq<Storage>)
    requires storages == ItemStorages(items) && items != []
    ensures StorageOf(List(items)) ==
      if exists i | 0 <= i < |storages| :: storages[i] != PurePlain then MixedPlain else PurePlain
    ensures SomeDiffer(storages) || SomeDiffer(ItemFormsOf(items)) <==> !Uniform(items, ItemFormsOf(items))
  {
    assert forall i :: 0 <= i < |items| ==> storages[i] == StorageOf(items[i]);
  }

  lemma ListForm(items: seq<Value>, forms: seq<Form>)
    requires forms == ItemFormsOf(items) && items != []
    ensures Uniform(items, forms) ==>
              FormOf(List(items)) == ArrayForm(Identical(Annotated(forms[0], StorageOf(items[0]))), |items|, None)
    ensures !Uniform(items, forms) ==>
              forall fs: seq<Form> :: |fs| == |items| && (forall i :: 0 <= i < |fs| ==> fs[i] == ChildForm(items[i])) ==>
                FormOf(List(items)) == ArrayForm(Each(fs), |items|, None)
  {
    var inner := seq(|items|, i requires 0 <= i < |items| => FormOf(items[i]));
    assert forms == inner;
    if !Uniform(items, forms) {
      forall fs: seq<Form> | |fs| == |items| && (forall i :: 0 <= i < |fs| ==> fs[i] == ChildForm(items[i]))
        ensures FormOf(List(items)) == ArrayForm(Each(fs), |items|, None)
      {
        assert fs == FormOf(List(items)).itemForms.forms;
      }
    }
  }

  predicate SomeDiffer<T(==)>(s: seq<T>) {
    exists i | 0 <= i < |s| :: s[i] != s[0]
  }

  method GetItemForms(data: Value) returns (storages: seq<Storage>, forms: seq<Form>)
    requires data.List?
    ensures storages == ItemStorages(data.items) && forms == ItemFormsOf(data.items)
    decreases data, 0
  {
    storages, forms := [], [];
    for i := 0 to |data.items|
      invariant storages == ItemStorages(data.items[..i]) && forms == ItemFormsOf(data.items[..i])
    {
      var s, f := GetForm(data.items[i]);
      storages, forms := storages + [s], forms + [f];
    }
    assert data.items[..|data.items|] == data.items;
  }

  method AnnotateItems(data: Value, inferred: seq<Form>, storages: seq<Storage>) returns (forms: seq<Form>)
    requires data.List?
    requires inferred == ItemFormsOf(data.items) && storages == ItemStorages(data.items)
    ensures |forms| == |data.items| && forall i :: 0 <= i < |forms| ==> forms[i] == ChildForm(data.items[i])
  {
    forms := inferred;
    for i := 0 to |data.items|
      invariant |forms| == |data.items|
      invariant forall j :: 0 <= j < |forms| ==>
        forms[j] == if j < i then ChildForm(data.items[j]) else FormOf(data.items[j])
    {
      forms := forms[i := Annotated(forms[i], storages[i])];
    }
  }
}
