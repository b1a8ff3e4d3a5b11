/** The scoped symbol table (src/compiler/SymTab.py): a stack of scopes, each
    a map from names to entries. Lookups search from the innermost scope
    outwards, definitions go into the innermost scope, and entering and
    leaving a scope push and pop an empty map.

    A definition stores a `(value, type)` pair. `update_variable` stores the
    bare value instead, losing the type: `Overwritten` marks such an entry. */
module SymTab {

  import opened Wrappers
  import opened Types

  datatype Entry<T> = Bound(value: T, ty: Type) | Overwritten(value: T)

  type Scope<T> = map<string, Entry<T>>

  datatype SymTab<T> = SymTab(scopes: seq<Scope<T>>)

  datatype SymTabError =
    | NotFound(name: string)
    | NoScope
    | NotAPair(name: string)

  /** A fresh table: exactly one scope, and it is empty. */
  function NewSymTab<T>(): (s: SymTab<T>)
    ensures |s.scopes| == 1 && s.scopes[0] == map[]
  {
    SymTab([map[]])
  }

  function EnterScope<T>(s: SymTab<T>): (r: SymTab<T>)
    ensures |r.scopes| == |s.scopes| + 1 && r.scopes[..|s.scopes|] == s.scopes
    ensures r.scopes[|s.scopes|] == map[]
  {
    SymTab(s.scopes + [map[]])
  }

  /** Pops the innermost scope; popping from an empty stack fails. */
  function LeaveScope<T>(s: SymTab<T>): (r: Result<SymTab<T>, SymTabError>)
    ensures r.Err? <==> |s.scopes| == 0
    ensures r.Ok? ==> |r.value.scopes| + 1 == |s.scopes| && r.value.scopes == s.scopes[..|s.scopes| - 1]
  {
    if |s.scopes| == 0 then Err(NoScope) else Ok(SymTab(s.scopes[..|s.scopes| - 1]))
  }

  /** Binds `name` to `(value, ty)` in the innermost scope; every other scope,
      and every other name of the innermost scope, is left as it was. */
  function DefineVariable<T>(s: SymTab<T>, name: string, value: T, ty: Type): (r: Result<SymTab<T>, SymTabError>)
    ensures r.Err? <==> |s.scopes| == 0
    ensures r.Ok? ==> |r.value.scopes| == |s.scopes|
    ensures r.Ok? ==> r.value.scopes[..|s.scopes| - 1] == s.scopes[..|s.scopes| - 1]
    ensures r.Ok? ==> r.value.scopes[|s.scopes| - 1] == s.scopes[|s.scopes| - 1][name := Bound(value, ty)]
  {
    if |s.scopes| == 0 then
      Err(NoScope)
    else
      var last := |s.scopes| - 1;
      Ok(SymTab(s.scopes[last := s.scopes[last][name := Bound(value, ty)]]))
  }

  /** The index of the innermost scope that binds `name`, if any. */
  function Innermost<T>(scopes: seq<Scope<T>>, name: string): (r: Option<nat>)
    ensures r.None? <==> forall j :: 0 <= j < |scopes| ==> name !in scopes[j]
    ensures r.Some? ==> r.value < |scopes| && name in scopes[r.value]
    ensures r.Some? ==> forall j :: r.value < j < |scopes| ==> name !in scopes[j]
    decreases |scopes|
  {
    if |scopes| == 0 then None
    else if name in scopes[|scopes| - 1] then Some(|scopes| - 1)
    else Innermost(scopes[..|scopes| - 1], name)
  }

  /** The innermost binding of `name`. */
  function Binding<T>(s: SymTab<T>, name: string): (r: Result<Entry<T>, SymTabError>)
    ensures r.Err? <==> Innermost(s.scopes, name).None?
    ensures r.Ok? ==> r.value == s.scopes[Innermost(s.scopes, name).value][name]
    ensures r.Err? ==> r.error == NotFound(name)
  {
    match Innermost(s.scopes, name)
    case None => Err(NotFound(name))
    case Some(i) => Ok(s.scopes[i][name])
  }

  /** The value part of the innermost binding; a bare value is returned as is. */
  function LookupVariable<T>(s: SymTab<T>, name: string): (r: Result<T, SymTabError>)
    ensures r.Ok? <==> Binding(s, name).Ok?
    ensures r.Ok? ==> r.value == Binding(s, name).value.value
  {
    var entry :- Binding(s, name);
    Ok(entry.value)
  }

  /** The type part of the innermost binding; a bare value has none to unpack. */
  function LookupVariableType<T>(s: SymTab<T>, name: string): (r: Result<Type, SymTabError>)
    ensures r.Ok? <==> Binding(s, name).Ok? && Binding(s, name).value.Bound?
    ensures r.Ok? ==> r.value == Binding(s, name).value.ty
  {
    var entry :- Binding(s, name);
    match entry
    case Bound(_, ty) => Ok(ty)
    case Overwritten(_) => Err(NotAPair(name))
  }

  /** `update_variable` as written: the innermost scope binding `name` gets the
      bare value, without its type. */
  function UpdateVariable<T>(s: SymTab<T>, name: string, value: T): (r: Result<SymTab<T>, SymTabError>)
    ensures r.Err? <==> Innermost(s.scopes, name).None?
    ensures r.Ok? ==> r.value.scopes == s.scopes[Innermost(s.scopes, name).value := s.scopes[Innermost(s.scopes, name).value][name := Overwritten(value)]]
  {
    match Innermost(s.scopes, name)
    case None => Err(NotFound(name))
    case Some(i) => Ok(SymTab(s.scopes[i := s.scopes[i][name := Overwritten(value)]]))
  }

  /** The update the table's readers expect: the new value keeps the type the
      name was defined with. */
  function UpdateVariableKeepingType<T>(s: SymTab<T>, name: string, value: T): (r: Result<SymTab<T>, SymTabError>)
    ensures r.Err? <==> Innermost(s.scopes, name).None?
    ensures r.Ok? ==> |r.value.scopes| == |s.scopes|
    ensures r.Ok? ==> forall j :: 0 <= j < |s.scopes| && j != Innermost(s.scopes, name).value ==> r.value.scopes[j] == s.scopes[j]
  {
    match Innermost(s.scopes, name)
    case None => Err(NotFound(name))
    case Some(i) =>
      var entry := match s.scopes[i][name]
        case Bound(_, ty) => Bound(value, ty)
        case Overwritten(_) => Overwritten(value);
      Ok(SymTab(s.scopes[i := s.scopes[i][name := entry]]))
  }

  // ---------------------------------------------------------------------------
  // Properties

  /** Leaving a scope just entered gives back the table exactly. */
  lemma EnterThenLeave<T>(s: SymTab<T>)
    ensures LeaveScope(EnterScope(s)) == Ok(s)
  {
    assert EnterScope(s).scopes[..|s.scopes|] == s.scopes;
  }

  /** A definition is visible at once, with its value and type, and hides
      nothing but older bindings of the same name. */
  lemma {:induction false} DefineThenLookup<T>(s: SymTab<T>, name: string, value: T, ty: Type, other: string)
    requires |s.scopes| > 0 && other != name
    ensures LookupVariable(DefineVariable(s, name, value, ty).value, name) == Ok(value)
    ensures LookupVariableType(DefineVariable(s, name, value, ty).value, name) == Ok(ty)
    ensures Binding(DefineVariable(s, name, value, ty).value, other) == Binding(s, other)
  {
    var s' := DefineVariable(s, name, value, ty).value;
    var last := |s.scopes| - 1;
    assert Innermost(s'.scopes, name) == Some(last);
    InnermostAgree(s.scopes, s'.scopes, other);
  }

  /** The innermost scope binding `name` is the one that binds it with no
      scope above binding it too. */
  lemma InnermostIs<T>(a: seq<Scope<T>>, name: string, i: nat)
    requires i < |a| && name in a[i]
    requires forall j :: i < j < |a| ==> name !in a[j]
    ensures Innermost(a, name) == Some(i)
  {
  }

  /** Two stacks that agree on which scopes bind `name`, and on its entries there, agree on its innermost binding. */
  lemma {:induction false} InnermostAgree<T>(a: seq<Scope<T>>, b: seq<Scope<T>>, name: string)
    requires |a| == |b|
    requires forall j :: 0 <= j < |a| ==> (name in a[j] <==> name in b[j])
    requires forall j :: 0 <= j < |a| && name in a[j] ==> a[j][name] == b[j][name]
    ensures Innermost(a, name) == Innermost(b, name)
    ensures Innermost(a, name).Some? ==> a[Innermost(a, name).value][name] == b[Innermost(b, name).value][name]
    decreases |a|
  {
    if |a| > 0 && name !in a[|a| - 1] {
      InnermostAgree(a[..|a| - 1], b[..|b| - 1], name);
    }
  }

  /** Shadowing: a definition made in an inner scope disappears with that
      scope, and the table is exactly as before entering it. */
  lemma Shadowing<T>(s: SymTab<T>, name: string, value: T, ty: Type)
    ensures DefineVariable(EnterScope(s), name, value, ty).Ok?
    ensures LeaveScope(DefineVariable(EnterScope(s), name, value, ty).value) == Ok(s)
  {
    var inner := DefineVariable(EnterScope(s), name, value, ty).value;
    assert inner.scopes[..|s.scopes|] == s.scopes;
  }

  /** An update changes only the innermost scope binding the name, and only
      that name in it. */
  lemma UpdateIsLocal<T>(s: SymTab<T>, name: string, value: T, other: string)
    requires Innermost(s.scopes, name).Some? && other != name
    ensures LookupVariable(UpdateVariable(s, name, value).value, name) == Ok(value)
    ensures Binding(UpdateVariable(s, name, value).value, other) == Binding(s, other)
  {
    var s' := UpdateVariable(s, name, value).value;
    InnermostAgree(s.scopes, s'.scopes, other);
    InnermostIs(s'.scopes, name, Innermost(s.scopes, name).value);
  }

  /** After `update_variable` the type of the name can no longer be read:
      `x` defined as an `Int` and updated has no type. */
  lemma UpdateLosesType<T>(s: SymTab<T>, name: string, value: T)
    requires Innermost(s.scopes, name).Some?
    ensures LookupVariableType(UpdateVariable(s, name, value).value, name) == Err(NotAPair(name))
  {
    var s' := UpdateVariable(s, name, value).value;
    InnermostIs(s'.scopes, name, Innermost(s.scopes, name).value);
  }

  /** The corrected update keeps the type and still changes the value. */
  lemma UpdateKeepsType<T>(s: SymTab<T>, name: string, value: T)
    requires Innermost(s.scopes, name).Some?
    ensures LookupVariable(UpdateVariableKeepingType(s, name, value).value, name) == Ok(value)
    ensures LookupVariableType(UpdateVariableKeepingType(s, name, value).value, name) == LookupVariableType(s, name)
  {
    var s' := UpdateVariableKeepingType(s, name, value).value;
    InnermostIs(s'.scopes, name, Innermost(s.scopes, name).value);
  }

  // ---------------------------------------------------------------------------
  // Built-in symbols

  /** What a built-in name is bound to: a type name, a boolean constant, or a
      host function, kept only by name. */
  datatype BuiltinValue = TypeName(name: string) | BoolConst(b: bool) | HostFunction(name: string)

  function Binary(operand: Type, result: Type): Type {
    FunctionType([operand, operand], result)
  }

  /** The built-in symbols in the order they are defined. */
  const BuiltinTable: seq<(string, BuiltinValue, Type)> := [
    ("Int", TypeName("Int"), Int),
    ("Bool", TypeName("Bool"), Bool),
    ("true", BoolConst(true), Bool),
    ("false", BoolConst(false), Bool),
    ("+", HostFunction("+"), Binary(Int, Int)),
    ("-", HostFunction("-"), Binary(Int, Int)),
    ("*", HostFunction("*"), Binary(Int, Int)),
    ("/", HostFunction("/"), Binary(Int, Int)),
    ("%", HostFunction("%"), Binary(Int, Int)),
    ("==", HostFunction("=="), Binary(Int, Bool)),
    ("!=", HostFunction("!="), Binary(Int, Bool)),
    ("<", HostFunction("<"), Binary(Int, Bool)),
    ("<=", HostFunction("<="), Binary(Int, Bool)),
    (">", HostFunction(">"), Binary(Int, Bool)),
    (">=", HostFunction(">="), Binary(Int, Bool)),
    ("and", HostFunction("and"), Binary(Bool, Bool)),
    ("or", HostFunction("or"), Binary(Bool, Bool)),
    ("unary_not", HostFunction("unary_not"), FunctionType([Bool], Bool)),
    ("unary_-", HostFunction("unary_-"), FunctionType([Int], Int)),
    ("print_int", HostFunction("print_int"), FunctionType([Int], Unit))
  ]

  /** Defines each entry of `table` in turn. */
  function DefineAll(s: SymTab<BuiltinValue>, table: seq<(string, BuiltinValue, Type)>): (r: Result<SymTab<BuiltinValue>, SymTabError>)
    ensures r.Err? <==> |s.scopes| == 0
    ensures r.Ok? ==> |r.value.scopes| == |s.scopes| && r.value.scopes[..|s.scopes| - 1] == s.scopes[..|s.scopes| - 1]
    decreases |table|
  {
    if |table| == 0 then
      if |s.scopes| == 0 then Err(NoScope) else Ok(s)
    else
      var next :- DefineVariable(s, table[0].0, table[0].1, table[0].2);
      DefineAll(next, table[1..])
  }

  function AddBuiltinSymbols(s: SymTab<BuiltinValue>): (r: Result<SymTab<BuiltinValue>, SymTabError>)
    ensures r.Err? <==> |s.scopes| == 0
  {
    DefineAll(s, BuiltinTable)
  }

  /** After defining a table of distinct names, the innermost scope binds each
      name to its entry. */
  lemma {:induction false} DefineAllBinds(s: SymTab<BuiltinValue>, table: seq<(string, BuiltinValue, Type)>, k: nat)
    requires |s.scopes| > 0 && k < |table|
    requires forall i, j :: 0 <= i < j < |table| ==> table[i].0 != table[j].0
    ensures table[k].0 in DefineAll(s, table).value.scopes[|s.scopes| - 1]
    ensures DefineAll(s, table).value.scopes[|s.scopes| - 1][table[k].0] == Bound(table[k].1, table[k].2)
    decreases |table|
  {
    var next := DefineVariable(s, table[0].0, table[0].1, table[0].2).value;
    if k == 0 {
      DefineAllKeeps(next, table[1..], table[0].0);
    } else {
      DefineAllBinds(next, table[1..], k - 1);
    }
  }

  /** Defining names other than `name` leaves its entry in the innermost scope alone. */
  lemma {:induction false} DefineAllKeeps(s: SymTab<BuiltinValue>, table: seq<(string, BuiltinValue, Type)>, name: string)
    requires |s.scopes| > 0 && name in s.scopes[|s.scopes| - 1]
    requires forall i :: 0 <= i < |table| ==> table[i].0 != name
    ensures name in DefineAll(s, table).value.scopes[|s.scopes| - 1]
    ensures DefineAll(s, table).value.scopes[|s.scopes| - 1][name] == s.scopes[|s.scopes| - 1][name]
    decreases |table|
  {
    if |table| > 0 {
      var next := DefineVariable(s, table[0].0, table[0].1, table[0].2).value;
      DefineAllKeeps(next, table[1..], name);
    }
  }

  lemma BuiltinNamesDistinct()
    ensures forall i, j :: 0 <= i < j < |BuiltinTable| ==> BuiltinTable[i].0 != BuiltinTable[j].0
  {
  }

  /** In a one-scope table, a table of distinct names is looked up entry by entry. */
  lemma {:induction false} DefineAllLookup(s: SymTab<BuiltinValue>, table: seq<(string, BuiltinValue, Type)>, k: nat)
    requires |s.scopes| == 1 && k < |table|
    requires forall i, j :: 0 <= i < j < |table| ==> table[i].0 != table[j].0
    ensures DefineAll(s, table).Ok?
    ensures LookupVariableType(DefineAll(s, table).value, table[k].0) == Ok(table[k].2)
    ensures LookupVariable(DefineAll(s, table).value, table[k].0) == Ok(table[k].1)
  {
    var r := DefineAll(s, table).value;
    DefineAllBinds(s, table, k);
    InnermostIs(r.scopes, table[k].0, 0);
  }

  /** In a fresh table with the built-ins added, each built-in name has the
      type the table gives it: `+ - * / %` take two `Int`s to an `Int`, the
      comparisons two `Int`s to a `Bool`, `and`/`or` two `Bool`s to a `Bool`,
      `unary_not` a `Bool` to a `Bool`, `unary_-` an `Int` to an `Int`. */
  lemma BuiltinTypes(k: nat)
    requires k < |BuiltinTable|
    ensures AddBuiltinSymbols(NewSymTab()).Ok?
    ensures LookupVariableType(AddBuiltinSymbols(NewSymTab()).value, BuiltinTable[k].0) == Ok(BuiltinTable[k].2)
    ensures LookupVariable(AddBuiltinSymbols(NewSymTab()).value, BuiltinTable[k].0) == Ok(BuiltinTable[k].1)
  {
    BuiltinNamesDistinct();
    DefineAllLookup(NewSymTab(), BuiltinTable, k);
  }
}
