/**
  The keys of the object `createSliceStore` returns. Every key but the atom's
  is built from the capitalised store name; the atom's uses the name as given.
 */
module SliceExports {
  import opened Utils
  import opened Wrappers

  /** The members of the returned bundle. */
  datatype Member =
    | GetState | SetState | ResetState | GetStateByKey | SetStateByKey
    | UseState | UseGetState | UseSetState
    | UseStateByKey | UseGetStateByKey | UseSetStateByKey
    | Provider | StoreEntry | AtomEntry | UseHydrate

  /** The key under which the bundle holds `m`, as the code builds it. */
  function ExportName(name: string, m: Member): (key: string)
    ensures m == AtomEntry ==> name <= key
  {
    var c := Capitalize(name);
    match m
    case GetState => "get" + c + "State"
    case SetState => "set" + c + "State"
    case ResetState => "reset" + c + "State"
    case GetStateByKey => "get" + c + "StateByKey"
    case SetStateByKey => "set" + c + "StateByKey"
    case UseState => "use" + c + "State"
    case UseGetState => "useGet" + c + "State"
    case UseSetState => "useSet" + c + "State"
    case UseStateByKey => "use" + c + "StateByKey"
    case UseGetStateByKey => "useGet" + c + "StateByKey"
    case UseSetStateByKey => "useSet" + c + "StateByKey"
    case Provider => c + "Provider"
    case StoreEntry => c + "Store"
    case AtomEntry => name + "Atom"
    case UseHydrate => "use" + c + "Hydrate"
  }

  /** Which member a key names, read off its length and a few of its
      characters; `None` for a length no member's key has. */
  function MemberOf(name: string, key: string): (m: Option<Member>)
  {
    if |key| < |name| + 4 then None
    else
      var extra := |key| - |name|;
      if extra == 4 then Some(AtomEntry)
      else if extra == 5 then Some(StoreEntry)
      else if extra == 8 then
        if key[0] == 'g' then Some(GetState)
        else if key[0] == 's' then Some(SetState)
        else if key[0] == 'u' then Some(UseState)
        else Some(Provider)
      else if extra == 10 then
        if key[0] == 'r' then Some(ResetState) else Some(UseHydrate)
      else if extra == 11 then
        if key[3] == 'G' then Some(UseGetState) else Some(UseSetState)
      else if extra == 13 then
        if key[0] == 'g' then Some(GetStateByKey)
        else if key[0] == 's' then Some(SetStateByKey)
        else Some(UseStateByKey)
      else if extra == 16 then
        if key[3] == 'G' then Some(UseGetStateByKey) else Some(UseSetStateByKey)
      else None
  }

  /** Every key names back the member it was built for. */
  lemma MemberOfExportName(name: string, m: Member)
    ensures MemberOf(name, ExportName(name, m)) == Some(m)
  {
    var c := Capitalize(name);
    if m == Provider {
      var key := c + "Provider";
      if |c| > 0 {
        assert key[0] == c[0];
      } else {
        assert key[0] == 'P';
      }
    }
  }

  /** No two members share a key, whatever the name: the bundle literal never
      overwrites one of its own entries. */
  lemma ExportNamesDistinct(name: string, m1: Member, m2: Member)
    requires m1 != m2
    ensures ExportName(name, m1) != ExportName(name, m2)
  {
    MemberOfExportName(name, m1);
    MemberOfExportName(name, m2);
  }

  /** With the empty name the keys are the bare templates. */
  lemma EmptyNameExports()
    ensures ExportName("", GetState) == "getState"
    ensures ExportName("", SetState) == "setState"
    ensures ExportName("", ResetState) == "resetState"
    ensures ExportName("", GetStateByKey) == "getStateByKey"
    ensures ExportName("", SetStateByKey) == "setStateByKey"
    ensures ExportName("", UseState) == "useState"
    ensures ExportName("", UseGetState) == "useGetState"
    ensures ExportName("", UseSetState) == "useSetState"
    ensures ExportName("", UseStateByKey) == "useStateByKey"
    ensures ExportName("", UseGetStateByKey) == "useGetStateByKey"
    ensures ExportName("", UseSetStateByKey) == "useSetStateByKey"
    ensures ExportName("", Provider) == "Provider"
    ensures ExportName("", StoreEntry) == "Store"
    ensures ExportName("", AtomEntry) == "Atom"
    ensures ExportName("", UseHydrate) == "useHydrate"
  {
  }

  /** The store entry uses the capitalised name, the atom entry the raw one:
      for "user" they are "UserStore" and "userAtom", while the declared return
      type promises "userStore". */
  lemma StoreEntryCapitalised()
    ensures ExportName("user", StoreEntry) == "UserStore"
    ensures ExportName("user", AtomEntry) == "userAtom"
    ensures ExportName("user", StoreEntry) != "user" + "Store"
  {
    assert ExportName("user", StoreEntry)[0] == 'U';
  }

  /** The runtime key table with the store entry under the raw name, as the
      declared return type names it (`${N}Store`). The declared atom key is
      not followed here: it carries a stray `}`. */
  function DeclaredExportName(name: string, m: Member): (key: string)
    ensures m != StoreEntry ==> key == ExportName(name, m)
  {
    if m == StoreEntry then name + "Store" else ExportName(name, m)
  }

  /** Under the declared keys the store and atom entries share the raw name as
      their prefix, and no two members share a key. */
  lemma DeclaredExportNamesDistinct(name: string, m1: Member, m2: Member)
    requires m1 != m2
    ensures name <= DeclaredExportName(name, StoreEntry)
    ensures name <= DeclaredExportName(name, AtomEntry)
    ensures DeclaredExportName(name, m1) != DeclaredExportName(name, m2)
  {
    MemberOfExportName(name, m1);
    MemberOfExportName(name, m2);
    assert MemberOf(name, name + "Store") == Some(StoreEntry);
  }
}

/**
  The keys of the object `createVecStore` returns. The operations use the
  capitalised store name; the store and atom entries use the name as given.
 */
module VecExports {
  import opened Utils
  import opened Wrappers

  datatype Member =
    | GetState | SetState | UseState | UseGetState | UseSetState
    | UseItem | UseGetItem | UseSetItem | SetItem | GetItem
    | UseHydrate | ResetState | Provider | StoreEntry | AtomEntry

  /** The key under which the bundle holds `m`, as the code builds it. */
  function ExportName(name: string, m: Member): (key: string)
    ensures m == StoreEntry || m == AtomEntry ==> name <= key
  {
    var c := Capitalize(name);
    match m
    case GetState => "get" + c + "State"
    case SetState => "set" + c + "State"
    case UseState => "use" + c + "State"
    case UseGetState => "useGet" + c + "State"
    case UseSetState => "useSet" + c + "State"
    case UseItem => "use" + c + "Item"
    case UseGetItem => "useGet" + c + "Item"
    case UseSetItem => "useSet" + c + "Item"
    case SetItem => "set" + c + "Item"
    case GetItem => "get" + c + "Item"
    case UseHydrate => "use" + c + "Hydrate"
    case ResetState => "reset" + c + "State"
    case Provider => c + "Provider"
    case StoreEntry => name + "Store"
    case AtomEntry => name + "Atom"
  }

  /** Which member a key names, read off its length and a few of its
      characters; `None` for a length no member's key has. */
  function MemberOf(name: string, key: string): (m: Option<Member>)
  {
    if |key| < |name| + 4 then None
    else
      var extra := |key| - |name|;
      if extra == 4 then Some(AtomEntry)
      else if extra == 5 then Some(StoreEntry)
      else if extra == 7 then
        if key[0] == 'g' then Some(GetItem)
        else if key[0] == 's' then Some(SetItem)
        else Some(UseItem)
      else if extra == 8 then
        if key[0] == 'g' then Some(GetState)
        else if key[0] == 's' then Some(SetState)
        else if key[0] == 'u' then Some(UseState)
        else Some(Provider)
      else if extra == 10 then
        if key[0] == 'r' then Some(ResetState)
        else if key[|key| - 1] == 'e' then Some(UseHydrate)
        else if key[3] == 'G' then Some(UseGetItem)
        else Some(UseSetItem)
      else if extra == 11 then
        if key[3] == 'G' then Some(UseGetState) else Some(UseSetState)
      else None
  }

  /** Every key names back the member it was built for. */
  lemma MemberOfExportName(name: string, m: Member)
    ensures MemberOf(name, ExportName(name, m)) == Some(m)
  {
    var c := Capitalize(name);
    if m == Provider {
      var key := c + "Provider";
      if |c| > 0 {
        assert key[0] == c[0];
      } else {
        assert key[0] == 'P';
      }
    }
  }

  /** No two members share a key, whatever the name. */
  lemma ExportNamesDistinct(name: string, m1: Member, m2: Member)
    requires m1 != m2
    ensures ExportName(name, m1) != ExportName(name, m2)
  {
    MemberOfExportName(name, m1);
    MemberOfExportName(name, m2);
  }

  /** With the empty name the keys are the bare templates. */
  lemma EmptyNameExports()
    ensures ExportName("", GetState) == "getState"
    ensures ExportName("", SetItem) == "setItem"
    ensures ExportName("", ResetState) == "resetState"
    ensures ExportName("", Provider) == "Provider"
    ensures ExportName("", StoreEntry) == "Store"
    ensures ExportName("", AtomEntry) == "Atom"
  {
  }
}
