/** The registry of types/registry.go, the copy of registry.go the `types`
    package carries: the same checks and indexes, no MIME type beside the
    codec, a `Codec()` accessor, and `codec.Default` (not part of this model)
    as the starting codec, taken here as a parameter.
 */
module TypesRegistry {
  import opened Base
  import opened Codecs
  import opened TypeCheck

  class Registry {
    var codec: Codec
    /** Index of types by name. */
    var types: map<string, TypeDef>
    /** Reflection type to type name. */
    var rtypes: map<GoType, string>

    ghost predicate Valid()
      reads this
    {
      IndexOk(codec, types, rtypes)
    }

    /** The registry literal NewRegistry starts from. */
    constructor (c: Codec)
      ensures Valid()
      ensures codec == c && types == map[] && rtypes == map[]
    {
      codec := c;
      types, rtypes := map[], map[];
    }

    /** `Codec()`: the codec every registered type was validated against and
        that Marshal and Unmarshal delegate to. */
    function Codec(): (c: Codecs.Codec)
      reads this
      ensures Valid() ==> forall n :: n in types ==> CodecAccepts(c, types[n].init.value)
      ensures Valid() ==> forall v :: IsRegistered(v) && c.marshal(v).Ok? ==> Marshal(v) == c.marshal(v)
    {
      codec
    }

    /** Applies `Codec(opt.name)` to this registry. */
    method AddOption(opt: RegistryOption, table: CodecTable) returns (err: Option<Error>)
      modifies this`codec
      ensures err.Some? <==> opt.name !in table.codecs
      ensures err.Some? ==> err.value == CodecNotRegistered(opt.name) && unchanged(this)
      ensures err.None? ==> codec == table.codecs[opt.name]
    {
      if opt.name !in table.codecs {
        return Some(CodecNotRegistered(opt.name));
      }
      codec := table.codecs[opt.name];
      return None;
    }

    /** `addType`: records the name and indexes both the pointer type the
        factory yields and the struct type it points to. */
    method AddType(name: string, typ: TypeDef)
      requires YieldsStructPointer(typ)
      modifies this`types, this`rtypes
      ensures types == old(types)[name := typ]
      ensures var s := typ.init.value.typ.elem;
        rtypes == old(rtypes)[Pointer(s) := name][Plain(s) := name]
      ensures old(Valid()) && name !in old(types) && Registrable(codec, name, typ) ==> Valid()
    {
      if Valid() && name !in types && Registrable(codec, name, typ) {
        AddTypeKeepsIndex(codec, types, rtypes, name, typ);
      }
      types := types[name := typ];
      var rt := TypeOf(typ.init.value).value;
      rtypes := rtypes[rt := name];
      rtypes := rtypes[Plain(rt.elem) := name];
    }

    /** Some registered name owns the reflection type of `v`. */
    ghost predicate IsRegistered(v: Value)
      reads this
    {
      TypeOf(v).Some? && Owned(types, TypeOf(v).value)
    }

    /** `Init(t)`: a fresh value of the type registered as `t`. */
    function Init(t: string): (r: Result<Value>)
      reads this
      requires Valid()
      ensures r.Err? <==> t !in types
      ensures r.Err? ==> r.error == TypeNotRegistered(t)
      ensures r.Ok? ==> r.value == types[t].init.value && Owns(types[t], TypeOf(r.value).value)
      ensures r.Ok? ==> IsRegistered(r.value)
    {
      if t !in types then Err(TypeNotRegistered(t))
      else
        var v := types[t].init.value;
        assert Owns(types[t], TypeOf(v).value);
        Ok(v)
    }

    /** `Lookup(v)`: the registered name of `v`'s type, for a pointer to a
        registered struct and for the struct value alike. */
    function Lookup(v: Value): (r: Result<string>)
      reads this
      requires Valid()
      ensures r.Ok? <==> IsRegistered(v)
      ensures r.Ok? ==> r.value in types && Owns(types[r.value], TypeOf(v).value)
      ensures r.Err? ==> r.error == NoTypeForStruct(TypeOf(v))
    {
      match TypeOf(v)
      case None => Err(NoTypeForStruct(None))
      case Some(rt) =>
        IndexFindsOwner(codec, types, rtypes, rt);
        if rt in rtypes then Ok(rtypes[rt]) else Err(NoTypeForStruct(Some(rt)))
    }

    /** `Marshal(v)`: refuses an unregistered value before the codec sees it. */
    function Marshal(v: Value): (r: Result<seq<byte>>)
      reads this
      requires Valid()
      ensures !IsRegistered(v) ==> r == Err(NoTypeForStruct(TypeOf(v)))
      ensures IsRegistered(v) && codec.marshal(v).Ok? ==> r == codec.marshal(v)
      ensures IsRegistered(v) && codec.marshal(v).Err? ==>
                r == Err(MarshalError(TypeOf(v).value, codec.marshal(v).error))
    {
      match Lookup(v)
      case Err(e) => Err(e)
      case Ok(_) =>
        match codec.marshal(v)
        case Ok(b) => Ok(b)
        case Err(e) => Err(MarshalError(TypeOf(v).value, e))
    }

    /** `Unmarshal(b, v)`: refuses an unregistered target before the codec
        sees it; on success gives what the target holds afterwards: the same
        struct or struct pointer, holding the content the codec decoded. */
    function Unmarshal(b: seq<byte>, v: Value): (r: Result<Value>)
      reads this
      requires Valid()
      ensures !IsRegistered(v) ==> r == Err(NoTypeForStruct(TypeOf(v)))
      ensures IsRegistered(v) && codec.unmarshal(b, v).Ok? ==>
                v.Obj? && r == Ok(v.(fields := codec.unmarshal(b, v).value))
      ensures IsRegistered(v) && codec.unmarshal(b, v).Err? ==>
                r == Err(UnmarshalError(TypeOf(v).value, codec.unmarshal(b, v).error))
    {
      match Lookup(v)
      case Err(e) => Err(e)
      case Ok(_) =>
        match codec.unmarshal(b, v)
        case Ok(content) => Ok(v.(fields := content))
        case Err(e) => Err(UnmarshalError(TypeOf(v).value, e))
    }

    /** `UnmarshalType(b, t)`: `Init(t)` then `Unmarshal`. A registered name
        always passes the registration check inside `Unmarshal`, so only the
        codec can fail it. The value returned is the fresh `*T` that `Init`
        made, holding the decoded content, so it is always a registered
        pointer of the type registered as `t`. */
    function UnmarshalType(b: seq<byte>, t: string): (r: Result<Value>)
      reads this
      requires Valid()
      ensures t !in types ==> r == Err(TypeNotRegistered(t))
      ensures t in types ==> (r.Ok? <==> codec.unmarshal(b, types[t].init.value).Ok?)
      ensures r.Ok? ==>
                r.value == types[t].init.value.(fields := codec.unmarshal(b, types[t].init.value).value)
      ensures r.Ok? ==>
                && r.value.Obj? && r.value.typ == types[t].init.value.typ && r.value.typ.Pointer?
                && IsRegistered(r.value) && Lookup(r.value).Ok?
    {
      match Init(t)
      case Err(e) => Err(e)
      case Ok(v) =>
        var r := Unmarshal(b, v);
        if r.Ok? then
          assert Owns(types[t], TypeOf(r.value).value);
          r
        else r
    }

    /** A registered value encoded by `Marshal` and decoded by `UnmarshalType`
        under the name `Lookup` gives for it comes back with the same content,
        as a pointer to the same struct type, provided the codec decodes what
        it encodes. */
    lemma RoundTrip(v: Value)
      requires Valid() && IsRegistered(v) && DecodesWhatItEncodes(codec, v)
      ensures Marshal(v).Ok? ==>
        var back := UnmarshalType(Marshal(v).value, Lookup(v).value);
        back.Ok? && SameContent(back.value, v) && back.value.typ == Pointer(ElemShape(v.typ))
    {
      if Marshal(v).Ok? {
        var n := Lookup(v).value;
        var target := types[n].init.value;
        assert Owns(types[n], TypeOf(v).value);
        assert ElemShape(target.typ) == ElemShape(v.typ);
        var _ := codec.unmarshal(codec.marshal(v).value, target);
      }
    }

    /** NewRegistry: applies the options, then validates and adds every
        type. Any failure returns no registry at all. */
    static method NewRegistry(
      types: map<string, TypeDef>, opts: seq<RegistryOption>, table: CodecTable, defaultCodec: Codec)
      returns (r: Registry?, err: Option<Error>)
      ensures r != null <==> err.None?
      ensures FirstUnknownCodec(opts, table).Some? ==>
                err == Some(CodecNotRegistered(FirstUnknownCodec(opts, table).value))
      ensures FirstUnknownCodec(opts, table).None? ==>
                var c := SelectedCodec(opts, table, defaultCodec);
                && (err.None? <==> forall n :: n in types ==> Registrable(c, n, types[n]))
                && (err.Some? ==> exists n :: n in types && err == CheckType(c, n, types[n]))
      ensures r != null ==>
                && fresh(r) && r.Valid() && r.types == types
                && r.codec == SelectedCodec(opts, table, defaultCodec)
    {
      r := new Registry(defaultCodec);
      var i := 0;
      while i < |opts|
        invariant 0 <= i <= |opts|
        invariant forall j :: 0 <= j < i ==> opts[j].name in table.codecs
        invariant r.codec == SelectedCodec(opts[..i], table, defaultCodec)
        invariant r.types == map[] && r.rtypes == map[]
      {
        err := r.AddOption(opts[i], table);
        if err.Some? {
          return null, err;
        }
        i := i + 1;
      }
      assert opts[..i] == opts;
      var remaining := types.Keys;
      while remaining != {}
        invariant remaining <= types.Keys
        invariant r.Valid()
        invariant r.codec == SelectedCodec(opts, table, defaultCodec)
        invariant r.types.Keys == types.Keys - remaining
        invariant forall n :: n in r.types ==> r.types[n] == types[n]
        decreases remaining
      {
        var n :| n in remaining;
        err := CheckType(r.codec, n, types[n]);
        if err.Some? {
          return null, err;
        }
        r.AddType(n, types[n]);
        remaining := remaining - {n};
      }
      return r, None;
    }
  }
}
