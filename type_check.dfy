/** The registration checks and the two indexes shared by both registries.
    registry.go:22-27, 74-129 and types/registry.go:22-27, 77-132 are the same
    code; this module states it once and both registry modules use it.
 */
module TypeCheck {
  import opened Base
  import opened Codecs
  import opened TypeNames

  /** A `*Type`. `init` is the `Init` factory, `None` when it is nil; every call
      of the factory yields a fresh copy of `init.value`. */
  datatype TypeDef = TypeDef(init: Option<Value>)

  /** The factory exists and yields a non-nil pointer to a struct. */
  predicate YieldsStructPointer(t: TypeDef)
  {
    t.init.Some? && t.init.value.Obj? && t.init.value.typ.Pointer? && t.init.value.typ.elem.StructShape?
  }

  /** The two reflection types `addType` indexes for `t`: `rt` and `rt.Elem()`. */
  function Tags(t: TypeDef): set<GoType>
    requires YieldsStructPointer(t)
  {
    var s := t.init.value.typ.elem;
    {Pointer(s), Plain(s)}
  }

  /** `validateTypeName`. */
  function ValidateTypeName(n: string): (r: Option<Error>)
    ensures r.None? <==> IsDottedName(n)
    ensures r.Some? ==> r.value == TypeNotValid(n, InvalidCharacters)
  {
    NamePatternCorrect(n);
    if MatchesNamePattern(n) then None else Some(TypeNotValid(n, InvalidCharacters))
  }

  /** The codec can encode the factory's value and decode the bytes back into it. */
  ghost predicate CodecAccepts(c: Codec, v: Value)
  {
    c.marshal(v).Ok? && c.unmarshal(c.marshal(v).value, v).Ok?
  }

  /** Everything `validate` demands of a named type. */
  ghost predicate Registrable(c: Codec, name: string, t: TypeDef)
  {
    MatchesNamePattern(name) && YieldsStructPointer(t) && CodecAccepts(c, t.init.value)
  }

  /** `validate(name, typ)` with the registry's codec `c`: the checks run in a
      fixed order and the first that fails is reported, wrapping ErrTypeNotValid. */
  function CheckType(c: Codec, name: string, t: TypeDef): (r: Option<Error>)
    ensures r.None? <==> Registrable(c, name, t)
    ensures r.Some? ==> r.value.TypeNotValid? && r.value.name == name
    ensures name == "" ==> r == Some(TypeNotValid(name, MissingName))
    ensures name != "" && !MatchesNamePattern(name) ==> r == Some(TypeNotValid(name, InvalidCharacters))
    ensures MatchesNamePattern(name) && t.init.None? ==> r == Some(TypeNotValid(name, NilInit))
    ensures MatchesNamePattern(name) && t.init == Some(Nil) ==> r == Some(TypeNotValid(name, InitReturnsNil))
    ensures MatchesNamePattern(name) && t.init.Some? && TypeOf(t.init.value).Some? && TypeOf(t.init.value).value.Plain? ==>
              r == Some(TypeNotValid(name, NotPointer))
    ensures (MatchesNamePattern(name) && t.init.Some? && t.init.value.Obj? && t.init.value.typ.Pointer? &&
             !t.init.value.typ.elem.StructShape?) ==> r == Some(TypeNotValid(name, NotStruct))
    ensures MatchesNamePattern(name) && YieldsStructPointer(t) && c.marshal(t.init.value).Err? ==>
              r == Some(TypeNotValid(name, MarshalFailed(c.marshal(t.init.value).error)))
    ensures (MatchesNamePattern(name) && YieldsStructPointer(t) && c.marshal(t.init.value).Ok? &&
             c.unmarshal(c.marshal(t.init.value).value, t.init.value).Err?) ==>
              r == Some(TypeNotValid(name, UnmarshalFailed(c.unmarshal(c.marshal(t.init.value).value, t.init.value).error)))
  {
    if name == "" then Some(TypeNotValid(name, MissingName))
    else
      var nameErr := ValidateTypeName(name);
      if nameErr.Some? then nameErr
      else if t.init.None? then Some(TypeNotValid(name, NilInit))
      else
        var v := t.init.value;
        match TypeOf(v)
        case None => Some(TypeNotValid(name, InitReturnsNil))
        case Some(rt) =>
          if !rt.Pointer? then Some(TypeNotValid(name, NotPointer))
          else if !rt.elem.StructShape? then Some(TypeNotValid(name, NotStruct))
          else match c.marshal(v)
            case Err(e) => Some(TypeNotValid(name, MarshalFailed(e)))
            case Ok(b) =>
              match c.unmarshal(b, v)
              case Err(e) => Some(TypeNotValid(name, UnmarshalFailed(e)))
              case Ok(_) => None
  }

  /** What the two indexes of a constructed registry satisfy: every registered
      type passed the checks, both its reflection types are indexed, and every
      indexed reflection type leads back to a name that owns it. */
  ghost predicate IndexOk(c: Codec, types: map<string, TypeDef>, rtypes: map<GoType, string>)
  {
    && (forall n :: n in types ==> Registrable(c, n, types[n]))
    && (forall n {:trigger Covers(types[n], rtypes.Keys)} :: n in types ==> Covers(types[n], rtypes.Keys))
    && (forall t :: t in rtypes ==> rtypes[t] in types && t in Tags(types[rtypes[t]]))
  }

  /** Both reflection types of `t` are among `keys`. */
  predicate Covers(t: TypeDef, keys: set<GoType>)
  {
    YieldsStructPointer(t) && Tags(t) <= keys
  }

  /** `addType` on a name not yet registered, after `validate` accepted it,
      keeps the indexes consistent. When another name already owned the same
      reflection types, the new name takes them over. */
  lemma AddTypeKeepsIndex(
    c: Codec, types: map<string, TypeDef>, rtypes: map<GoType, string>, name: string, t: TypeDef)
    requires IndexOk(c, types, rtypes)
    requires name !in types && Registrable(c, name, t)
    ensures var s := t.init.value.typ.elem;
      IndexOk(c, types[name := t], rtypes[Pointer(s) := name][Plain(s) := name])
  {
    var s := t.init.value.typ.elem;
    var types', rtypes' := types[name := t], rtypes[Pointer(s) := name][Plain(s) := name];
    forall n | n in types'
      ensures Registrable(c, n, types'[n]) && Covers(types'[n], rtypes'.Keys)
    {
      if n != name {
        assert Covers(types[n], rtypes.Keys);
      }
    }
    AddTypeKeepsOwners(c, types, rtypes, name, t);
  }

  lemma AddTypeKeepsOwners(
    c: Codec, types: map<string, TypeDef>, rtypes: map<GoType, string>, name: string, t: TypeDef)
    requires IndexOk(c, types, rtypes)
    requires name !in types && Registrable(c, name, t)
    ensures var s := t.init.value.typ.elem;
      var types', rtypes' := types[name := t], rtypes[Pointer(s) := name][Plain(s) := name];
      forall g :: g in rtypes' ==> rtypes'[g] in types' && g in Tags(types'[rtypes'[g]])
  {
  }

  /** `t` is a registrable type and `rt` is one of the two reflection types
      indexed for it. */
  predicate Owns(t: TypeDef, rt: GoType)
  {
    YieldsStructPointer(t) && rt in Tags(t)
  }

  /** Some name in `types` owns `rt`. */
  ghost predicate Owned(types: map<string, TypeDef>, rt: GoType)
  {
    exists n :: n in types && Owns(types[n], rt)
  }

  /** A reflection type is indexed iff some registered name owns it, and the
      index then leads to such an owner. */
  lemma IndexFindsOwner(c: Codec, types: map<string, TypeDef>, rtypes: map<GoType, string>, rt: GoType)
    requires IndexOk(c, types, rtypes)
    ensures rt in rtypes <==> Owned(types, rt)
    ensures rt in rtypes ==> rtypes[rt] in types && Owns(types[rtypes[rt]], rt)
  {
    if Owned(types, rt) {
      var n :| n in types && Owns(types[n], rt);
      assert Covers(types[n], rtypes.Keys);
    }
  }

  /** `Codec(name)`, the one registry option. */
  datatype RegistryOption = CodecOption(name: string)

  /** The first option that names a codec missing from the table. */
  function FirstUnknownCodec(opts: seq<RegistryOption>, table: CodecTable): (r: Option<string>)
    ensures r.None? <==> forall i :: 0 <= i < |opts| ==> opts[i].name in table.codecs
    ensures r.Some? ==> exists i :: 0 <= i < |opts| && opts[i].name == r.value && r.value !in table.codecs &&
                          forall j :: 0 <= j < i ==> opts[j].name in table.codecs
  {
    if opts == [] then None
    else if opts[0].name !in table.codecs then Some(opts[0].name)
    else
      var r := FirstUnknownCodec(opts[1..], table);
      assert r.Some? ==> forall j :: 1 <= j < |opts| ==> opts[j] == opts[1..][j - 1];
      r
  }

  /** The codec a registry ends up with once every option has been applied:
      the last option wins, and `initial` stays when there is none. */
  function SelectedCodec(opts: seq<RegistryOption>, table: CodecTable, initial: Codec): Codec
    requires forall i :: 0 <= i < |opts| ==> opts[i].name in table.codecs
  {
    if opts == [] then initial else table.codecs[opts[|opts| - 1].name]
  }

  /** The MIME type recorded beside the selected codec. */
  function SelectedMime(opts: seq<RegistryOption>, table: CodecTable): string
  {
    if opts == [] then "" else MimeOf(table, opts[|opts| - 1].name)
  }
}
