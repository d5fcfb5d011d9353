/** The C# language processor of the code generator. It reads the API
    specifications (one entry per class, in key order) and annotates them in
    place for the templates: file names, the capability-gated visibility
    flag, file-upload parameters, enum references and C# type and member
    names. The JSON objects of a specification are values here; the
    dictionary of classes is the mutable state. */
module CodeGenCSharp {
  import opened Wrappers
  import opened Strings
  import opened Dict
  import opened BaseType

  /** A string-valued property the processor writes: absent, null (what
      `getTypeForCSharp` returns for a falsy type) or a string. */
  datatype JsStr = Unset | Null | Str(s: string)

  function ToJs(o: Option<string>): JsStr {
    match o
    case None => Null
    case Some(s) => Str(s)
  }

  /** A JavaScript value in a visibility flag (integral numbers only). */
  datatype Flag = FUndefined | FNull | FBool(b: bool) | FNum(n: int)

  /** One entry of the enum metadata map. An empty `node` stands for a
      missing or empty one: the enum is declared by the class itself. */
  datatype EnumMetadata = EnumMetadata(node: string, fieldOrParam: string, fieldOrParamPascal: string)

  /** A class's `api_spec_based_enum_reference` (None while absent) and the
      keys set in `api_spec_based_enum_list`. */
  datatype EnumRefs = EnumRefs(reference: Option<seq<EnumMetadata>>, listed: set<string>)

  /** An API parameter. An empty `typ` is a missing or empty type. */
  datatype ParamSpec = ParamSpec(name: string, typ: string, paramNameParams: bool, isEnumParam: bool,
                                 typeCSharp: JsStr, basetypeCSharp: JsStr, isString: bool)

  /** One API of a class; `params` is None when the key is absent. */
  datatype ApiSpec = ApiSpec(params: Option<seq<ParamSpec>>, allowFileUpload: bool)

  /** A field of a class. */
  datatype FieldSpec = FieldSpec(typ: string, keyvalue: bool, namePascal: string, isIrregularName: bool,
                                 notVisible: Flag, csharpNotVisible: Flag,
                                 isRootNode: bool, isEnumField: bool, isNode: bool,
                                 nodeBaseType: JsStr, typeCSharp: JsStr, nameCSharp: JsStr)

  /** The specification of one class. */
  datatype ClassSpec = ClassSpec(namePascal: string, hasGet: bool, hasId: bool,
                                 apis: seq<ApiSpec>, fields: seq<FieldSpec>, enums: EnumRefs)

  // ---------------------------------------------------------------------
  // formatFileName

  /** `formatFileName`: the pascal-case name and `.cs`; a missing name
      reads as `undefined`. */
  function FormatFileName(clsName: Entries<string>): (r: string)
    ensures |r| >= 3 && r[|r| - 3..] == ".cs"
  {
    Lookup(clsName, "name:pascal_case").GetOr("undefined") + ".cs"
  }

  /** Removing the extension gives the pascal-case name back. */
  lemma FileNameRoundTrip(clsName: Entries<string>, name: string)
    requires Lookup(clsName, "name:pascal_case") == Some(name)
    ensures FormatFileName(clsName)[..|FormatFileName(clsName)| - 3] == name
  {
    var r := FormatFileName(clsName);
    assert r == name + ".cs";
    assert r[..|r| - 3] == name;
  }

  // ---------------------------------------------------------------------
  // specOverrideProcessing: `not_visible |= csharp:not_visible`

  const Two32: nat := 0x1_0000_0000

  /** Two to the power `k`. */
  function Pow2(k: nat): (p: nat)
    ensures p >= 1
  {
    if k == 0 then 1 else 2 * Pow2(k - 1)
  }

  /** The unsigned 32 bits JavaScript's `ToInt32` gives a value: undefined
      and null are 0, booleans 0 or 1, numbers wrap modulo 2^32. */
  function Uint32(f: Flag): (u: nat)
    ensures u < Two32
  {
    match f
    case FNum(n) => n % Two32
    case FBool(b) => if b then 1 else 0
    case FUndefined => 0
    case FNull => 0
  }

  /** Two's-complement reading of 32 bits. */
  function Signed(u: nat): (i: int)
    requires u < Two32
    ensures -0x8000_0000 <= i < 0x8000_0000
    ensures i == 0 <==> u == 0
  {
    if u >= 0x8000_0000 then u - Two32 else u
  }

  /** JavaScript's `ToInt32`. */
  function ToInt32(f: Flag): int {
    Signed(Uint32(f))
  }

  /** Bitwise or of two naturals, lowest bit first. */
  function OrBits(a: nat, b: nat): nat
    decreases a + b
  {
    if a == 0 && b == 0 then 0
    else 2 * OrBits(a / 2, b / 2) + (if a % 2 == 1 || b % 2 == 1 then 1 else 0)
  }

  /** The or of two values is zero exactly when both are. */
  lemma {:induction false} OrBitsZero(a: nat, b: nat)
    ensures OrBits(a, b) == 0 <==> a == 0 && b == 0
    decreases a + b
  {
    if !(a == 0 && b == 0) && a % 2 == 0 && b % 2 == 0 {
      OrBitsZero(a / 2, b / 2);
    }
  }

  /** The or of two `k`-bit values is a `k`-bit value. */
  lemma {:induction false} OrBitsBound(a: nat, b: nat, k: nat)
    requires a < Pow2(k) && b < Pow2(k)
    ensures OrBits(a, b) < Pow2(k)
    decreases k
  {
    if k > 0 && !(a == 0 && b == 0) {
      OrBitsBound(a / 2, b / 2, k - 1);
    }
  }

  /** Or-ing `b` in again changes nothing. */
  lemma {:induction false} OrBitsAbsorb(a: nat, b: nat)
    ensures OrBits(OrBits(a, b), b) == OrBits(a, b)
    decreases a + b
  {
    if !(a == 0 && b == 0) {
      var r := OrBits(a, b);
      OrBitsZero(a, b);
      assert r / 2 == OrBits(a / 2, b / 2) && r % 2 == (if a % 2 == 1 || b % 2 == 1 then 1 else 0);
      OrBitsAbsorb(a / 2, b / 2);
    }
  }

  lemma Pow2At32()
    ensures Pow2(32) == Two32
  {
    assert Pow2(8) == 0x100;
    assert Pow2(16) == 0x1_0000;
    assert Pow2(24) == 0x100_0000;
  }

  /** The or of two 32-bit values, as a 32-bit value. */
  function Or32(a: nat, b: nat): (r: nat)
    requires a < Two32 && b < Two32
    ensures r < Two32
    ensures r == 0 <==> a == 0 && b == 0
  {
    Pow2At32();
    OrBitsBound(a, b, 32);
    OrBitsZero(a, b);
    OrBits(a, b)
  }

  /** A flag is truthy in a template when it is true or a non-zero number. */
  predicate Truthy(f: Flag) {
    (f.FBool? && f.b) || (f.FNum? && f.n != 0)
  }

  /** `a | b` in JavaScript: both operands through `ToInt32`, the result a
      32-bit signed number. */
  function OrFlags(a: Flag, b: Flag): Flag {
    FNum(Signed(Or32(Uint32(a), Uint32(b))))
  }

  /** The combined flag is set exactly when either operand, read as a
      32-bit integer, is non-zero; so `true` in either hides the field. */
  lemma OrFlagsTruthy(a: Flag, b: Flag)
    ensures Truthy(OrFlags(a, b)) <==> ToInt32(a) != 0 || ToInt32(b) != 0
    ensures a == FBool(true) || b == FBool(true) ==> Truthy(OrFlags(a, b))
  {
  }

  /** Or-ing the same override in again changes nothing. */
  lemma OrFlagsIdempotent(a: Flag, b: Flag)
    ensures OrFlags(OrFlags(a, b), b) == OrFlags(a, b)
  {
    var r := Or32(Uint32(a), Uint32(b));
    assert Uint32(FNum(Signed(r))) == r;
    OrBitsAbsorb(Uint32(a), Uint32(b));
  }

  function OverrideField(f: FieldSpec): FieldSpec {
    f.(notVisible := OrFlags(f.notVisible, f.csharpNotVisible))
  }

  function OverrideClass(c: ClassSpec): ClassSpec {
    c.(fields := seq(|c.fields|, j requires 0 <= j < |c.fields| => OverrideField(c.fields[j])))
  }

  /** What `specOverrideProcessing` leaves: every field's `not_visible`
      or-ed with its C# override, nothing else changed. */
  function OverrideAll(cs: Entries<ClassSpec>): (r: Entries<ClassSpec>)
    ensures |r| == |cs|
    ensures forall i :: 0 <= i < |r| ==> r[i].0 == cs[i].0 && r[i].1.namePascal == cs[i].1.namePascal
  {
    seq(|cs|, i requires 0 <= i < |cs| => (cs[i].0, OverrideClass(cs[i].1)))
  }

  /** `specOverrideProcessing` changes no key, no class property other than
      the fields, and no field property other than `not_visible`, which
      becomes truthy exactly when either flag is a non-zero 32-bit integer. */
  lemma OverrideOnlyVisibility(cs: Entries<ClassSpec>, i: nat, j: nat)
    requires i < |cs| && j < |cs[i].1.fields|
    ensures var c := OverrideAll(cs)[i];
      && c.0 == cs[i].0 && c.1.(fields := cs[i].1.fields) == cs[i].1 && |c.1.fields| == |cs[i].1.fields|
    ensures var f := cs[i].1.fields[j];
      var g := OverrideAll(cs)[i].1.fields[j];
      && g.(notVisible := f.notVisible) == f
      && (Truthy(g.notVisible) <==> ToInt32(f.notVisible) != 0 || ToInt32(f.csharpNotVisible) != 0)
  {
    var f := cs[i].1.fields[j];
    assert OverrideAll(cs)[i].1.fields[j] == OverrideField(f);
    OrFlagsTruthy(f.notVisible, f.csharpNotVisible);
  }

  /** Running `specOverrideProcessing` twice is the same as running it once. */
  lemma OverrideIdempotent(cs: Entries<ClassSpec>)
    ensures OverrideAll(OverrideAll(cs)) == OverrideAll(cs)
  {
    forall i | 0 <= i < |cs|
      ensures OverrideClass(OverrideClass(cs[i].1)) == OverrideClass(cs[i].1)
    {
      var c := cs[i].1;
      forall j | 0 <= j < |c.fields|
        ensures OverrideField(OverrideField(c.fields[j])) == OverrideField(c.fields[j])
      {
        OrFlagsIdempotent(c.fields[j].notVisible, c.fields[j].csharpNotVisible);
      }
    }
  }

  // ---------------------------------------------------------------------
  // getTypeForCSharp (its regex table is the injected `mapType`)

  /** `getTypeForCSharp`: null for a falsy type, the mapped type otherwise. */
  function GetTypeForCSharp(t: string, mapType: string -> string): (r: Option<string>)
    ensures r.None? <==> t == ""
  {
    if t == "" then None else Some(mapType(t))
  }

  /** Replacing a piece of a non-empty type by a non-empty name leaves a
      non-empty type. */
  lemma ReplaceFirstNonEmpty(s: string, pat: string, rep: string)
    requires s != "" && rep != ""
    ensures ReplaceFirst(s, pat, rep) != ""
  {
    var i := IndexOf(s, pat);
    if i != -1 {
      assert |s[..i] + rep + s[i + |pat|..]| >= |rep|;
    }
  }

  // ---------------------------------------------------------------------
  // Enum references

  function Fops(ms: seq<EnumMetadata>): (ks: seq<string>)
    ensures |ks| == |ms| && forall i :: 0 <= i < |ms| ==> ks[i] == ms[i].fieldOrParam
  {
    seq(|ms|, i requires 0 <= i < |ms| => ms[i].fieldOrParam)
  }

  predicate Unique(ks: seq<string>) {
    forall i, j :: 0 <= i < j < |ks| ==> ks[i] != ks[j]
  }

  /** `listed` holds exactly the keys of `ms`: the last key is listed, and
      the others are recorded by the rest of the list. Removing the last key
      before recursing makes every key occur once. */
  predicate Recorded(ms: seq<EnumMetadata>, listed: set<string>)
    decreases |ms|
  {
    if |ms| == 0 then listed == {}
    else
      var k := ms[|ms| - 1].fieldOrParam;
      k in listed && Recorded(ms[..|ms| - 1], listed - {k})
  }

  /** The list records exactly the keys of the reference, each once. */
  predicate EnumRefsOk(r: EnumRefs) {
    r.reference.Some? ==> Recorded(r.reference.value, r.listed)
  }

  /** The recorded set is the set of keys. */
  lemma {:induction false} RecordedKeys(ms: seq<EnumMetadata>, listed: set<string>)
    ensures Recorded(ms, listed) ==> forall k :: k in listed <==> k in Fops(ms)
    decreases |ms|
  {
    if |ms| > 0 && Recorded(ms, listed) {
      var n := |ms| - 1;
      var k := ms[n].fieldOrParam;
      RecordedKeys(ms[..n], listed - {k});
      assert Fops(ms) == Fops(ms[..n]) + [k];
    }
  }

  /** A recorded list holds each key once. */
  lemma {:induction false} RecordedUnique(ms: seq<EnumMetadata>, listed: set<string>)
    requires Recorded(ms, listed)
    ensures Unique(Fops(ms))
    decreases |ms|
  {
    if |ms| > 0 {
      var n := |ms| - 1;
      var k := ms[n].fieldOrParam;
      RecordedUnique(ms[..n], listed - {k});
      RecordedKeys(ms[..n], listed - {k});
      assert Fops(ms) == Fops(ms[..n]) + [k];
    }
  }

  /** Records an enum in the class: creates the reference and the list
      when the reference is absent, then pushes the metadata unless its
      `field_or_param` is already listed. */
  function PushEnum(refs: EnumRefs, md: EnumMetadata): (r: EnumRefs)
    ensures r.reference.Some? && md.fieldOrParam in r.listed
    ensures refs.reference.Some? ==> refs.listed <= r.listed
    ensures EnumRefsOk(refs) ==> EnumRefsOk(r) && md.fieldOrParam in Fops(r.reference.value)
  {
    var init := if refs.reference.None? then EnumRefs(Some([]), {}) else refs;
    if md.fieldOrParam in init.listed then
      RecordedKeys(init.reference.value, init.listed);
      init
    else
      var ms := init.reference.value;
      var r := EnumRefs(Some(ms + [md]), init.listed + {md.fieldOrParam});
      assert (ms + [md])[..|ms|] == ms && r.listed - {md.fieldOrParam} == init.listed;
      assert Fops(ms + [md]) == Fops(ms) + [md.fieldOrParam];
      r
  }

  // ---------------------------------------------------------------------
  // Parameters

  predicate IsFileName(name: string) {
    name in ["file", "bytes", "zipbytes"]
  }

  /** Some parameter is a file upload. */
  predicate AnyFile(ps: seq<ParamSpec>) {
    exists i | 0 <= i < |ps| :: IsFileName(ps[i].name)
  }

  lemma AnyFileSnoc(ps: seq<ParamSpec>, i: nat)
    requires i < |ps|
    ensures AnyFile(ps[..i + 1]) <==> AnyFile(ps[..i]) || IsFileName(ps[i].name)
  {
    if AnyFile(ps[..i + 1]) && !IsFileName(ps[i].name) {
      var j :| 0 <= j < i + 1 && IsFileName(ps[..i + 1][j].name);
      assert ps[..i][j] == ps[j];
    }
    if AnyFile(ps[..i]) {
      var j :| 0 <= j < i && IsFileName(ps[..i][j].name);
      assert ps[..i + 1][j] == ps[j];
    }
    assert ps[..i + 1][i] == ps[i];
  }

  /** What becomes of one parameter: None when it is removed as a file
      upload, and the enum references afterwards. */
  function ParamStep(p: ParamSpec, enums: Entries<EnumMetadata>, mapType: string -> string, refs: EnumRefs)
    : (r: (Option<ParamSpec>, EnumRefs))
    ensures SlotFor(p, r.0, enums, mapType)
    ensures EnumRefsOk(refs) ==> EnumRefsOk(r.1)
  {
    var named := if p.name == "params" then p.(paramNameParams := true) else p;
    if IsFileName(p.name) then (None, refs)
    else if p.typ == "" then (Some(named), refs)
    else
      var base := GetBaseType(p.typ);
      match Lookup(enums, base)
      case Some(md) =>
        var csBase := if md.node == "" then "Enum" + md.fieldOrParamPascal
                      else md.node + ".Enum" + md.fieldOrParamPascal;
        var refs' := if md.node == "" then PushEnum(refs, md) else refs;
        ReplaceFirstNonEmpty(p.typ, base, csBase);
        (Some(named.(isEnumParam := true,
                     typeCSharp := ToJs(GetTypeForCSharp(ReplaceFirst(p.typ, base, csBase), mapType)),
                     basetypeCSharp := Str(csBase))), refs')
      case None =>
        var t := GetTypeForCSharp(p.typ, mapType);
        var typed := named.(typeCSharp := ToJs(t));
        (Some(if t == Some("String") then typed.(isString := true) else typed), refs)
  }

  /** The type rules of a kept, typed parameter: its base type found in the
      enum map makes it an enum parameter whose C# base type names the enum
      (qualified by the declaring node, if any), whose C# type is the mapped
      type with the base type replaced by that name, and records the enum in the
      class unless a node declares it; otherwise its C# type is the mapped
      type, and the mapped type `String` flags it as a string. */
  lemma ParamTypeRules(p: ParamSpec, enums: Entries<EnumMetadata>, mapType: string -> string, refs: EnumRefs)
    requires !IsFileName(p.name) && p.typ != ""
    ensures var (o, refs') := ParamStep(p, enums, mapType, refs);
      var q := o.value;
      var md := Lookup(enums, GetBaseType(p.typ));
      && (q.isEnumParam <==> p.isEnumParam || md.Some?)
      && (md.Some? ==>
            && var csBase := if md.value.node == "" then "Enum" + md.value.fieldOrParamPascal
                             else md.value.node + ".Enum" + md.value.fieldOrParamPascal;
            && q.basetypeCSharp == Str(csBase)
            && q.typeCSharp == Str(mapType(ReplaceFirst(p.typ, GetBaseType(p.typ), csBase)))
            && q.isString == p.isString
            && (md.value.node == "" ==> md.value.fieldOrParam in refs'.listed)
            && (md.value.node != "" ==> refs' == refs))
      && (md.None? ==>
            && q.typeCSharp == Str(mapType(p.typ)) && q.basetypeCSharp == p.basetypeCSharp
            && (q.isString <==> p.isString || mapType(p.typ) == "String")
            && refs' == refs)
  {
  }

  /** The promise about one slot: file uploads are removed, every other
      parameter is kept with its name and type, a parameter named `params`
      is flagged, and a typed parameter gets a (non-null) C# type, which is
      `mapType` of its declared type when its base type is not an enum. */
  predicate SlotFor(p: ParamSpec, o: Option<ParamSpec>, enums: Entries<EnumMetadata>, mapType: string -> string) {
    (o.None? <==> IsFileName(p.name))
    && (o.Some? ==>
          o.value.name == p.name && o.value.typ == p.typ
          && (p.name == "params" ==> o.value.paramNameParams)
          && (p.typ != "" ==> o.value.typeCSharp.Str?)
          && (p.typ != "" && Lookup(enums, GetBaseType(p.typ)).None? ==> o.value.typeCSharp == Str(mapType(p.typ))))
  }

  /** The slots of a parameter array after the loop, in order. */
  function ParamsStep(ps: seq<ParamSpec>, enums: Entries<EnumMetadata>, mapType: string -> string, refs: EnumRefs)
    : (r: (seq<Option<ParamSpec>>, EnumRefs))
    ensures |r.0| == |ps|
    ensures EnumRefsOk(refs) ==> EnumRefsOk(r.1)
    decreases |ps|
  {
    if |ps| == 0 then ([], refs)
    else
      var (init, r1) := ParamsStep(ps[..|ps| - 1], enums, mapType, refs);
      var (o, r2) := ParamStep(ps[|ps| - 1], enums, mapType, r1);
      (init + [o], r2)
  }

  /** One more parameter adds one more slot. */
  lemma ParamsStepSnoc(ps: seq<ParamSpec>, i: nat, enums: Entries<EnumMetadata>, mapType: string -> string,
                       refs: EnumRefs)
    requires i < |ps|
    ensures var (init, r1) := ParamsStep(ps[..i], enums, mapType, refs);
      var (o, r2) := ParamStep(ps[i], enums, mapType, r1);
      ParamsStep(ps[..i + 1], enums, mapType, refs) == (init + [o], r2)
  {
    assert ps[..i + 1][..i] == ps[..i];
  }

  /** The parameter loop's step: writing the slot of parameter `i` extends
      the slots of the parameters before it by one. */
  lemma ParamsStepNext(ps: seq<ParamSpec>, i: nat, slots: seq<Option<ParamSpec>>, refsIn: EnumRefs,
                       slot: Option<ParamSpec>, refsOut: EnumRefs,
                       enums: Entries<EnumMetadata>, mapType: string -> string, refs: EnumRefs)
    requires i < |ps| && |slots| == |ps|
    requires (slots[..i], refsIn) == ParamsStep(ps[..i], enums, mapType, refs)
    requires (slot, refsOut) == ParamStep(ps[i], enums, mapType, refsIn)
    ensures (slots[i := slot][..i + 1], refsOut) == ParamsStep(ps[..i + 1], enums, mapType, refs)
  {
    ParamsStepSnoc(ps, i, enums, mapType, refs);
    assert slots[i := slot][..i + 1] == slots[..i] + [slot];
  }

  /** Every slot keeps the promise about its parameter. */
  lemma ParamsStepSlots(ps: seq<ParamSpec>, enums: Entries<EnumMetadata>, mapType: string -> string, refs: EnumRefs)
    ensures forall i :: 0 <= i < |ps| ==> SlotFor(ps[i], ParamsStep(ps, enums, mapType, refs).0[i], enums, mapType)
  {
    forall i | 0 <= i < |ps|
      ensures SlotFor(ps[i], ParamsStep(ps, enums, mapType, refs).0[i], enums, mapType)
    {
      ParamsStepAt(ps, i, enums, mapType, refs);
    }
  }

  /** The slot at one position keeps the promise about its parameter. */
  lemma {:induction false} ParamsStepAt(ps: seq<ParamSpec>, i: nat, enums: Entries<EnumMetadata>,
                                        mapType: string -> string, refs: EnumRefs)
    requires i < |ps|
    ensures SlotFor(ps[i], ParamsStep(ps, enums, mapType, refs).0[i], enums, mapType)
    decreases |ps|
  {
    var n := |ps| - 1;
    var (init, r1) := ParamsStep(ps[..n], enums, mapType, refs);
    var (o, r2) := ParamStep(ps[n], enums, mapType, r1);
    ParamsStepSnoc(ps, n, enums, mapType, refs);
    assert ps[..n + 1] == ps;
    var slots := init + [o];
    assert ParamsStep(ps, enums, mapType, refs).0 == slots;
    if i < n {
      ParamsStepAt(ps[..n], i, enums, mapType, refs);
      assert ps[..n][i] == ps[i] && slots[i] == init[i];
    } else {
      assert slots[i] == o;
    }
  }

  /** `filter(element => element != null)`. */
  function Present(slots: seq<Option<ParamSpec>>): seq<ParamSpec>
    decreases |slots|
  {
    if |slots| == 0 then []
    else
      var init := Present(slots[..|slots| - 1]);
      match slots[|slots| - 1]
      case None => init
      case Some(p) => init + [p]
  }

  function ParamNames(ps: seq<ParamSpec>): (ns: seq<string>)
    ensures |ns| == |ps| && forall i :: 0 <= i < |ps| ==> ns[i] == ps[i].name
  {
    seq(|ps|, i requires 0 <= i < |ps| => ps[i].name)
  }

  /** The names of the parameters that are not file uploads, in order. */
  function NonFileNames(ps: seq<ParamSpec>): seq<string>
    decreases |ps|
  {
    if |ps| == 0 then []
    else
      var init := NonFileNames(ps[..|ps| - 1]);
      var name := ps[|ps| - 1].name;
      if IsFileName(name) then init else init + [name]
  }

  /** After the filter the kept parameters are exactly the non-file ones,
      in their original relative order. */
  lemma {:induction false} PresentNames(ps: seq<ParamSpec>, slots: seq<Option<ParamSpec>>)
    requires |slots| == |ps|
    requires forall i :: 0 <= i < |ps| ==> (slots[i].None? <==> IsFileName(ps[i].name))
    requires forall i :: 0 <= i < |ps| && slots[i].Some? ==> slots[i].value.name == ps[i].name
    ensures ParamNames(Present(slots)) == NonFileNames(ps)
    decreases |ps|
  {
    if |ps| > 0 {
      var n := |ps| - 1;
      PresentNames(ps[..n], slots[..n]);
      match slots[n]
      case None =>
      case Some(p) =>
        assert ParamNames(Present(slots)) == ParamNames(Present(slots[..n])) + [p.name];
    }
  }

  /** A kept parameter is the kept value of one of the slots. */
  lemma {:induction false} PresentMembers(slots: seq<Option<ParamSpec>>, q: ParamSpec)
    ensures q in Present(slots) <==> Some(q) in slots
    decreases |slots|
  {
    if |slots| > 0 {
      var n := |slots| - 1;
      PresentMembers(slots[..n], q);
      assert slots == slots[..n] + [slots[n]];
    }
  }

  /** One API: the parameters are processed in order, then the removed
      slots are filtered out; a removed file parameter allows uploads. */
  function ApiStep(api: ApiSpec, enums: Entries<EnumMetadata>, mapType: string -> string, refs: EnumRefs)
    : (r: (ApiSpec, EnumRefs))
    ensures api.params.None? ==> r == (api, refs)
    ensures api.params.Some? ==> r.0.params.Some?
    ensures EnumRefsOk(refs) ==> EnumRefsOk(r.1)
  {
    match api.params
    case None => (api, refs)
    case Some(ps) =>
      var (slots, r1) := ParamsStep(ps, enums, mapType, refs);
      (ApiSpec(Some(Present(slots)),
               api.allowFileUpload || AnyFile(ps)), r1)
  }

  /** The parameter rules of one API: uploads are allowed exactly when they
      were or a file parameter was removed; the kept parameters are the
      others in order; `params` is flagged; typed ones have a C# type. */
  lemma ApiFiltering(api: ApiSpec, enums: Entries<EnumMetadata>, mapType: string -> string, refs: EnumRefs)
    requires api.params.Some?
    ensures var out := ApiStep(api, enums, mapType, refs).0;
      var ps := api.params.value;
      && (out.allowFileUpload <==> api.allowFileUpload || AnyFile(ps))
      && ParamNames(out.params.value) == NonFileNames(ps)
      && (forall q :: q in out.params.value ==> !IsFileName(q.name))
      && (forall q :: q in out.params.value && q.name == "params" ==> q.paramNameParams)
      && (forall q :: q in out.params.value && q.typ != "" ==> q.typeCSharp.Str?)
      && (forall q :: (q in out.params.value && q.typ != "" && Lookup(enums, GetBaseType(q.typ)).None?)
                       ==> q.typeCSharp == Str(mapType(q.typ)))
  {
    var ps := api.params.value;
    var slots := ParamsStep(ps, enums, mapType, refs).0;
    ParamsStepSlots(ps, enums, mapType, refs);
    PresentNames(ps, slots);
    forall q | q in Present(slots)
      ensures !IsFileName(q.name)
      ensures q.name == "params" ==> q.paramNameParams
      ensures q.typ != "" ==> q.typeCSharp.Str?
      ensures q.typ != "" && Lookup(enums, GetBaseType(q.typ)).None? ==> q.typeCSharp == Str(mapType(q.typ))
    {
      PresentMembers(slots, q);
      var i :| 0 <= i < |slots| && slots[i] == Some(q);
      assert SlotFor(ps[i], slots[i], enums, mapType);
    }
  }

  /** The APIs of a class, in order, threading the enum references. */
  function ApisStep(apis: seq<ApiSpec>, enums: Entries<EnumMetadata>, mapType: string -> string, refs: EnumRefs)
    : (r: (seq<ApiSpec>, EnumRefs))
    ensures |r.0| == |apis|
    ensures EnumRefsOk(refs) ==> EnumRefsOk(r.1)
    decreases |apis|
  {
    if |apis| == 0 then ([], refs)
    else
      var (init, r1) := ApisStep(apis[..|apis| - 1], enums, mapType, refs);
      var (a, r2) := ApiStep(apis[|apis| - 1], enums, mapType, r1);
      (init + [a], r2)
  }

  /** The promise about one API: one without parameters is unchanged, and
      one with parameters follows the rules of `ApiFiltering`. */
  predicate ApiFor(a: ApiSpec, b: ApiSpec, enums: Entries<EnumMetadata>, mapType: string -> string) {
    match a.params
    case None => b == a
    case Some(ps) =>
      && b.params.Some?
      && (b.allowFileUpload <==> a.allowFileUpload || AnyFile(ps))
      && ParamNames(b.params.value) == NonFileNames(ps)
      && (forall q :: q in b.params.value ==> !IsFileName(q.name))
      && (forall q :: q in b.params.value && q.name == "params" ==> q.paramNameParams)
      && (forall q :: q in b.params.value && q.typ != "" ==> q.typeCSharp.Str?)
      && (forall q :: (q in b.params.value && q.typ != "" && Lookup(enums, GetBaseType(q.typ)).None?)
                       ==> q.typeCSharp == Str(mapType(q.typ)))
  }

  /** Every API of a class keeps the promise about APIs. */
  lemma ApisStepApis(apis: seq<ApiSpec>, enums: Entries<EnumMetadata>, mapType: string -> string, refs: EnumRefs)
    ensures forall j :: 0 <= j < |apis| ==> ApiFor(apis[j], ApisStep(apis, enums, mapType, refs).0[j], enums, mapType)
  {
    forall j | 0 <= j < |apis|
      ensures ApiFor(apis[j], ApisStep(apis, enums, mapType, refs).0[j], enums, mapType)
    {
      ApisStepAt(apis, j, enums, mapType, refs);
    }
  }

  /** The API at one position keeps the promise about APIs. */
  lemma {:induction false} ApisStepAt(apis: seq<ApiSpec>, j: nat, enums: Entries<EnumMetadata>,
                                      mapType: string -> string, refs: EnumRefs)
    requires j < |apis|
    ensures ApiFor(apis[j], ApisStep(apis, enums, mapType, refs).0[j], enums, mapType)
    decreases |apis|
  {
    var n := |apis| - 1;
    var (init, r1) := ApisStep(apis[..n], enums, mapType, refs);
    assert ApisStep(apis, enums, mapType, refs).0[..n] == init;
    if j < n {
      ApisStepAt(apis[..n], j, enums, mapType, refs);
      assert apis[..n][j] == apis[j];
    } else if apis[n].params.Some? {
      ApiFiltering(apis[n], enums, mapType, r1);
    }
  }

  // ---------------------------------------------------------------------
  // Fields

  /** `name:csharp`: a member may not be named like its class, and an
      irregular name gets a `Value` prefix. */
  function NameCSharp(clsPascal: string, fieldPascal: string, irregular: bool): string {
    if clsPascal == fieldPascal then fieldPascal + "_"
    else if irregular then "Value" + fieldPascal
    else fieldPascal
  }

  /** A regular field's C# name never clashes with its class name, and it
      is the pascal name unless that would clash. */
  lemma NameAvoidsClass(clsPascal: string, fieldPascal: string)
    ensures NameCSharp(clsPascal, fieldPascal, false) != clsPascal
    ensures clsPascal != fieldPascal ==> NameCSharp(clsPascal, fieldPascal, false) == fieldPascal
  {
    if clsPascal == fieldPascal {
      assert |NameCSharp(clsPascal, fieldPascal, false)| == |clsPascal| + 1;
    }
  }

  /** The class of each known type name, as the field loop reads it: only
      whether the class exists and its `has_get` and `has_id`. */
  function Shape(cs: Entries<ClassSpec>): (r: Entries<(bool, bool)>)
    ensures |r| == |cs| && forall i :: 0 <= i < |cs| ==> r[i] == (cs[i].0, (cs[i].1.hasGet, cs[i].1.hasId))
  {
    seq(|cs|, i requires 0 <= i < |cs| => (cs[i].0, (cs[i].1.hasGet, cs[i].1.hasId)))
  }

  /** The field is a root node: its type is a class with `has_get` and
      `has_id`. */
  predicate IsRootType(shape: Entries<(bool, bool)>, t: string) {
    match Lookup(shape, t)
    case Some(info) => info.0 && info.1
    case None => false
  }

  /** The type rules of a field that has a type: enum and node flags, the
      node's base type, and the C# type (an enum, a key-value list or the
      mapped type); nothing else of the field changes. */
  function TypeField(f: FieldSpec, shape: Entries<(bool, bool)>, enums: Entries<EnumMetadata>,
                     mapType: string -> string, refs: EnumRefs): (r: (FieldSpec, EnumRefs))
    requires f.typ != ""
    ensures r.0 == FieldFlags(f, shape, enums, mapType).(typeCSharp := r.0.typeCSharp)
    ensures r.0.typeCSharp.Str?
    ensures f.keyvalue && Lookup(enums, GetBaseType(f.typ)).None? ==> r.0.typeCSharp == Str("List<KeyValue>")
    ensures EnumRefsOk(refs) ==> EnumRefsOk(r.1)
  {
    var f2 := FieldFlags(f, shape, enums, mapType);
    var base := GetBaseType(f.typ);
    match Lookup(enums, base)
    case Some(md) =>
      var csBase := "Enum" + md.fieldOrParamPascal;
      ReplaceFirstNonEmpty(f.typ, base, csBase);
      (f2.(typeCSharp := ToJs(GetTypeForCSharp(ReplaceFirst(f.typ, base, csBase), mapType))), PushEnum(refs, md))
    case None =>
      (f2.(typeCSharp := if f.keyvalue then Str("List<KeyValue>") else ToJs(GetTypeForCSharp(f.typ, mapType))), refs)
  }

  /** The enum and node flags a typed field is given before its C# type. */
  function FieldFlags(f: FieldSpec, shape: Entries<(bool, bool)>, enums: Entries<EnumMetadata>,
                      mapType: string -> string): (g: FieldSpec)
    ensures g == f.(isEnumField := g.isEnumField, isNode := g.isNode, nodeBaseType := g.nodeBaseType)
  {
    var f1 := if Lookup(enums, f.typ).Some? then f.(isEnumField := true) else f;
    var base := GetBaseType(f.typ);
    if Lookup(shape, base).Some?
    then f1.(isNode := true, nodeBaseType := ToJs(GetTypeForCSharp(base, mapType)))
    else f1
  }

  /** The flags of a typed field: it is an enum field when its type is in
      the enum map, and a node, with the mapped base type, when its base
      type is a class. */
  lemma FieldFlagRules(f: FieldSpec, shape: Entries<(bool, bool)>, enums: Entries<EnumMetadata>,
                       mapType: string -> string)
    ensures var g := FieldFlags(f, shape, enums, mapType);
      var base := GetBaseType(f.typ);
      && (g.isEnumField <==> f.isEnumField || Lookup(enums, f.typ).Some?)
      && (g.isNode <==> f.isNode || Lookup(shape, base).Some?)
      && (Lookup(shape, base).Some? ==> g.nodeBaseType == ToJs(GetTypeForCSharp(base, mapType)))
      && (Lookup(shape, base).None? ==> g.nodeBaseType == f.nodeBaseType)
  {
  }

  /** The C# type of a typed field: the enum of its base type put in place
      of the base type, with the enum recorded in the class; otherwise
      `List<KeyValue>` for a key-value field, or the mapped type. */
  lemma FieldTypeRules(f: FieldSpec, shape: Entries<(bool, bool)>, enums: Entries<EnumMetadata>,
                       mapType: string -> string, refs: EnumRefs)
    requires f.typ != ""
    ensures var (g, refs') := TypeField(f, shape, enums, mapType, refs);
      var base := GetBaseType(f.typ);
      var md := Lookup(enums, base);
      && (md.Some? ==>
            && g.typeCSharp
               == ToJs(GetTypeForCSharp(ReplaceFirst(f.typ, base, "Enum" + md.value.fieldOrParamPascal), mapType))
            && md.value.fieldOrParam in refs'.listed)
      && (md.None? ==>
            && g.typeCSharp == Str(if f.keyvalue then "List<KeyValue>" else mapType(f.typ))
            && refs' == refs)
  {
  }

  /** What becomes of one field, and the enum references afterwards. */
  function FieldStep(f: FieldSpec, clsPascal: string, shape: Entries<(bool, bool)>,
                     enums: Entries<EnumMetadata>, mapType: string -> string, refs: EnumRefs)
    : (r: (FieldSpec, EnumRefs))
    ensures FieldFor(f, r.0, clsPascal, shape, enums, mapType)
    ensures EnumRefsOk(refs) ==> EnumRefsOk(r.1)
  {
    var f1 := if IsRootType(shape, f.typ) then f.(isRootNode := true) else f;
    var (f2, refs2) := if f.typ == "" then (f1, refs) else TypeField(f1, shape, enums, mapType, refs);
    (f2.(nameCSharp := Str(NameCSharp(clsPascal, f.namePascal, f.isIrregularName))), refs2)
  }

  /** The promise about one field: its own properties are kept, it is a
      root node exactly when its type is a class with get and id, a typed
      field gets a non-null C# type (`mapType` of its declared type, or
      `List<KeyValue>`, when its base type is not an enum), and its C# name
      follows the naming rule; `TypeField` states the enum rules. */
  predicate FieldFor(f: FieldSpec, g: FieldSpec, clsPascal: string, shape: Entries<(bool, bool)>,
                     enums: Entries<EnumMetadata>, mapType: string -> string) {
    && g.typ == f.typ && g.keyvalue == f.keyvalue && g.namePascal == f.namePascal
    && g.isIrregularName == f.isIrregularName
    && g.notVisible == f.notVisible && g.csharpNotVisible == f.csharpNotVisible
    && (g.isRootNode <==> f.isRootNode || IsRootType(shape, f.typ))
    && (f.typ != "" ==> g.typeCSharp.Str?)
    && ((f.typ != "" && Lookup(enums, GetBaseType(f.typ)).None?)
          ==> g.typeCSharp == Str(if f.keyvalue then "List<KeyValue>" else mapType(f.typ)))
    && (f.typ == "" ==> g.typeCSharp == f.typeCSharp && g.isNode == f.isNode && g.isEnumField == f.isEnumField)
    && g.nameCSharp == Str(NameCSharp(clsPascal, f.namePascal, f.isIrregularName))
  }

  /** The fields of a class, in order, threading the enum references. */
  function FieldsStep(fs: seq<FieldSpec>, clsPascal: string, shape: Entries<(bool, bool)>,
                      enums: Entries<EnumMetadata>, mapType: string -> string, refs: EnumRefs)
    : (r: (seq<FieldSpec>, EnumRefs))
    ensures |r.0| == |fs|
    ensures EnumRefsOk(refs) ==> EnumRefsOk(r.1)
    decreases |fs|
  {
    if |fs| == 0 then ([], refs)
    else
      var (init, r1) := FieldsStep(fs[..|fs| - 1], clsPascal, shape, enums, mapType, refs);
      var (g, r2) := FieldStep(fs[|fs| - 1], clsPascal, shape, enums, mapType, r1);
      (init + [g], r2)
  }

  /** Every field keeps the promise about fields. */
  lemma FieldsStepFields(fs: seq<FieldSpec>, clsPascal: string, shape: Entries<(bool, bool)>,
                         enums: Entries<EnumMetadata>, mapType: string -> string, refs: EnumRefs)
    ensures forall i :: 0 <= i < |fs| ==>
              FieldFor(fs[i], FieldsStep(fs, clsPascal, shape, enums, mapType, refs).0[i], clsPascal, shape, enums, mapType)
  {
    forall i | 0 <= i < |fs|
      ensures FieldFor(fs[i], FieldsStep(fs, clsPascal, shape, enums, mapType, refs).0[i], clsPascal, shape, enums, mapType)
    {
      FieldsStepAt(fs, i, clsPascal, shape, enums, mapType, refs);
    }
  }

  /** The field at one position keeps the promise about fields. */
  lemma {:induction false} FieldsStepAt(fs: seq<FieldSpec>, i: nat, clsPascal: string, shape: Entries<(bool, bool)>,
                                        enums: Entries<EnumMetadata>, mapType: string -> string, refs: EnumRefs)
    requires i < |fs|
    ensures FieldFor(fs[i], FieldsStep(fs, clsPascal, shape, enums, mapType, refs).0[i], clsPascal, shape, enums, mapType)
    decreases |fs|
  {
    var n := |fs| - 1;
    var init := FieldsStep(fs[..n], clsPascal, shape, enums, mapType, refs).0;
    assert FieldsStep(fs, clsPascal, shape, enums, mapType, refs).0[..n] == init;
    if i < n {
      FieldsStepAt(fs[..n], i, clsPascal, shape, enums, mapType, refs);
      assert fs[..n][i] == fs[i];
    }
  }

  /** The promise about one class: its name and shape are kept, and each
      API and each field keeps the promise about APIs and fields. */
  predicate ClassFor(c: ClassSpec, r: ClassSpec, shape: Entries<(bool, bool)>,
                     enums: Entries<EnumMetadata>, mapType: string -> string) {
    && r.namePascal == c.namePascal && r.hasGet == c.hasGet && r.hasId == c.hasId
    && |r.apis| == |c.apis|
    && (forall j :: 0 <= j < |c.apis| ==> ApiFor(c.apis[j], r.apis[j], enums, mapType))
    && |r.fields| == |c.fields|
    && (forall i :: 0 <= i < |c.fields| ==> FieldFor(c.fields[i], r.fields[i], c.namePascal, shape, enums, mapType))
  }

  /** One class: its APIs, then its fields. Each `field_or_param` stays in
      its enum reference at most once. */
  function ClassStep(c: ClassSpec, shape: Entries<(bool, bool)>, enums: Entries<EnumMetadata>,
                     mapType: string -> string): (r: ClassSpec)
    ensures ClassFor(c, r, shape, enums, mapType)
    ensures EnumRefsOk(c.enums) ==> EnumRefsOk(r.enums)
  {
    var (apis, r1) := ApisStep(c.apis, enums, mapType, c.enums);
    var (fields, r2) := FieldsStep(c.fields, c.namePascal, shape, enums, mapType, r1);
    ApisStepApis(c.apis, enums, mapType, c.enums);
    FieldsStepFields(c.fields, c.namePascal, shape, enums, mapType, r1);
    c.(apis := apis, fields := fields, enums := r2)
  }

  /** What `preMustacheProcess` leaves: every class under its own name,
      keeping the promise about classes. */
  function ProcessAll(cs: Entries<ClassSpec>, enums: Entries<EnumMetadata>, mapType: string -> string)
    : (r: Entries<ClassSpec>)
    ensures Shape(r) == Shape(cs)
    ensures |r| == |cs| && forall i :: 0 <= i < |cs| ==> r[i].0 == cs[i].0 && ClassFor(cs[i].1, r[i].1, Shape(cs), enums, mapType)
  {
    var r := seq(|cs|, i requires 0 <= i < |cs| => (cs[i].0, ClassStep(cs[i].1, Shape(cs), enums, mapType)));
    assert Shape(r) == Shape(cs);
    r
  }

  /** A class that had no enum reference ends with one in which every
      `field_or_param` occurs at most once. */
  lemma EnumReferenceUnique(cs: Entries<ClassSpec>, enums: Entries<EnumMetadata>, mapType: string -> string, i: nat)
    requires i < |cs| && cs[i].1.enums.reference.None?
    ensures var refs := ProcessAll(cs, enums, mapType)[i].1.enums;
      refs.reference.Some? ==> Unique(Fops(refs.reference.value))
  {
    var refs := ProcessAll(cs, enums, mapType)[i].1.enums;
    assert EnumRefsOk(cs[i].1.enums);
    if refs.reference.Some? {
      RecordedUnique(refs.reference.value, refs.listed);
    }
  }

  // ---------------------------------------------------------------------
  // The loops

  /** The body of the parameter loop for one parameter; None is the
      `undefined` left in a removed slot. */
  method ProcessParam(param: ParamSpec, enums: Entries<EnumMetadata>, mapType: string -> string, refs: EnumRefs)
    returns (slot: Option<ParamSpec>, refsOut: EnumRefs)
    ensures (slot, refsOut) == ParamStep(param, enums, mapType, refs)
  {
    var p := param;
    refsOut := refs;
    if p.name == "params" {
      p := p.(paramNameParams := true);
    }
    if IsFileName(p.name) {
      return None, refsOut;
    }
    if p.typ != "" {
      var base := GetBaseType(p.typ);
      var metadata := Lookup(enums, base);
      if metadata.Some? {
        p := p.(isEnumParam := true);
        var md := metadata.value;
        var csBase;
        if md.node == "" {
          refsOut := PushEnum(refsOut, md);
          csBase := "Enum" + md.fieldOrParamPascal;
        } else {
          csBase := md.node + ".Enum" + md.fieldOrParamPascal;
        }
        p := p.(typeCSharp := ToJs(GetTypeForCSharp(ReplaceFirst(p.typ, base, csBase), mapType)));
        p := p.(basetypeCSharp := Str(csBase));
      } else {
        p := p.(typeCSharp := ToJs(GetTypeForCSharp(p.typ, mapType)));
        if p.typeCSharp == Str("String") {
          p := p.(isString := true);
        }
      }
    }
    slot := Some(p);
  }

  /** The parameter loop of one API and the filter after it. */
  method ProcessParams(api: ApiSpec, enums: Entries<EnumMetadata>, mapType: string -> string, refs: EnumRefs)
    returns (out: ApiSpec, refsOut: EnumRefs)
    ensures (out, refsOut) == ApiStep(api, enums, mapType, refs)
  {
    out, refsOut := api, refs;
    if api.params.Some? {
      var ps := api.params.value;
      var slots := seq(|ps|, i requires 0 <= i < |ps| => Some(ps[i]));
      var allow := api.allowFileUpload;
      var i := 0;
      while i < |ps|
        invariant 0 <= i <= |ps| && |slots| == |ps|
        invariant (slots[..i], refsOut) == ParamsStep(ps[..i], enums, mapType, refs)
        invariant forall j :: i <= j < |ps| ==> slots[j] == Some(ps[j])
        invariant allow == (api.allowFileUpload || AnyFile(ps[..i]))
      {
        AnyFileSnoc(ps, i);
        var slot, refsNext := ProcessParam(slots[i].value, enums, mapType, refsOut);
        if slot.None? {
          allow := true;
        }
        ParamsStepNext(ps, i, slots, refsOut, slot, refsNext, enums, mapType, refs);
        slots, refsOut := slots[i := slot], refsNext;
        i := i + 1;
      }
      assert ps[..i] == ps && slots[..i] == slots;
      out := ApiSpec(Some(Present(slots)), allow);
    }
  }

  /** The API loop of one class. */
  method ProcessApis(apis: seq<ApiSpec>, enums: Entries<EnumMetadata>, mapType: string -> string, refs: EnumRefs)
    returns (out: seq<ApiSpec>, refsOut: EnumRefs)
    ensures (out, refsOut) == ApisStep(apis, enums, mapType, refs)
  {
    out, refsOut := [], refs;
    for i := 0 to |apis|
      invariant (out, refsOut) == ApisStep(apis[..i], enums, mapType, refs)
    {
      assert apis[..i + 1][..i] == apis[..i];
      var a;
      a, refsOut := ProcessParams(apis[i], enums, mapType, refsOut);
      out := out + [a];
    }
    assert apis[..|apis|] == apis;
  }

  /** The part of the field loop's body that runs when the field has a type. */
  method ProcessFieldType(field: FieldSpec, shape: Entries<(bool, bool)>, enums: Entries<EnumMetadata>,
                          mapType: string -> string, refs: EnumRefs)
    returns (f: FieldSpec, refsOut: EnumRefs)
    requires field.typ != ""
    ensures (f, refsOut) == TypeField(field, shape, enums, mapType, refs)
  {
    f, refsOut := field, refs;
    if Lookup(enums, f.typ).Some? {
      f := f.(isEnumField := true);
    }
    var base := GetBaseType(f.typ);
    if Lookup(shape, base).Some? {
      f := f.(isNode := true);
      f := f.(nodeBaseType := ToJs(GetTypeForCSharp(base, mapType)));
    }
    var metadata := Lookup(enums, base);
    if metadata.Some? {
      var csBase := "Enum" + metadata.value.fieldOrParamPascal;
      f := f.(typeCSharp := ToJs(GetTypeForCSharp(ReplaceFirst(f.typ, base, csBase), mapType)));
      refsOut := PushEnum(refsOut, metadata.value);
    } else if f.keyvalue {
      f := f.(typeCSharp := Str("List<KeyValue>"));
    } else {
      f := f.(typeCSharp := ToJs(GetTypeForCSharp(f.typ, mapType)));
    }
  }

  /** The body of the field loop for one field. */
  method ProcessField(field: FieldSpec, clsPascal: string, shape: Entries<(bool, bool)>,
                      enums: Entries<EnumMetadata>, mapType: string -> string, refs: EnumRefs)
    returns (f: FieldSpec, refsOut: EnumRefs)
    ensures (f, refsOut) == FieldStep(field, clsPascal, shape, enums, mapType, refs)
  {
    f, refsOut := field, refs;
    if IsRootType(shape, f.typ) {
      f := f.(isRootNode := true);
    }
    if f.typ != "" {
      f, refsOut := ProcessFieldType(f, shape, enums, mapType, refsOut);
    }
    if clsPascal == f.namePascal {
      f := f.(nameCSharp := Str(f.namePascal + "_"));
    } else if f.isIrregularName {
      f := f.(nameCSharp := Str("Value" + f.namePascal));
    } else {
      f := f.(nameCSharp := Str(f.namePascal));
    }
  }

  /** The field loop of one class. */
  method ProcessFields(fs: seq<FieldSpec>, clsPascal: string, shape: Entries<(bool, bool)>,
                       enums: Entries<EnumMetadata>, mapType: string -> string, refs: EnumRefs)
    returns (out: seq<FieldSpec>, refsOut: EnumRefs)
    ensures (out, refsOut) == FieldsStep(fs, clsPascal, shape, enums, mapType, refs)
  {
    out, refsOut := [], refs;
    for i := 0 to |fs|
      invariant (out, refsOut) == FieldsStep(fs[..i], clsPascal, shape, enums, mapType, refs)
    {
      assert fs[..i + 1][..i] == fs[..i];
      var f;
      f, refsOut := ProcessField(fs[i], clsPascal, shape, enums, mapType, refsOut);
      out := out + [f];
    }
    assert fs[..|fs|] == fs;
  }

  /** The dictionary of class specifications the processor rewrites. */
  class ApiSpecs {
    var classes: Entries<ClassSpec>

    constructor (classes: Entries<ClassSpec>)
      ensures this.classes == classes
    {
      this.classes := classes;
    }

    /** `specOverrideProcessing`. */
    method SpecOverrideProcessing()
      modifies this
      ensures classes == OverrideAll(old(classes))
    {
      for i := 0 to |classes|
        invariant |classes| == |old(classes)|
        invariant forall k :: 0 <= k < i ==> classes[k] == OverrideAll(old(classes))[k]
        invariant forall k :: i <= k < |classes| ==> classes[k] == old(classes)[k]
      {
        var cls := classes[i].1;
        var fields := cls.fields;
        for j := 0 to |fields|
          invariant |fields| == |cls.fields|
          invariant forall k :: 0 <= k < j ==> fields[k] == OverrideField(cls.fields[k])
          invariant forall k :: j <= k < |fields| ==> fields[k] == cls.fields[k]
        {
          var f := fields[j];
          fields := fields[j := f.(notVisible := OrFlags(f.notVisible, f.csharpNotVisible))];
        }
        assert fields == OverrideClass(cls).fields;
        classes := classes[i := (classes[i].0, cls.(fields := fields))];
      }
    }

    /** `preMustacheProcess`: the class loop. The field loop looks classes
        up in the live dictionary; it reads only which classes exist and
        their `has_get` and `has_id`, which no step changes. */
    method PreMustacheProcess(enums: Entries<EnumMetadata>, mapType: string -> string)
      modifies this
      ensures classes == ProcessAll(old(classes), enums, mapType)
      ensures forall i :: 0 <= i < |classes| && EnumRefsOk(old(classes)[i].1.enums) ==> EnumRefsOk(classes[i].1.enums)
    {
      for i := 0 to |classes|
        invariant |classes| == |old(classes)|
        invariant Shape(classes) == Shape(old(classes))
        invariant forall k :: 0 <= k < i ==> classes[k] == ProcessAll(old(classes), enums, mapType)[k]
        invariant forall k :: i <= k < |classes| ==> classes[k] == old(classes)[k]
      {
        var cls := classes[i].1;
        var apis, refs := ProcessApis(cls.apis, enums, mapType, cls.enums);
        var fields;
        fields, refs := ProcessFields(cls.fields, cls.namePascal, Shape(classes), enums, mapType, refs);
        var updated := classes[i := (classes[i].0, cls.(apis := apis, fields := fields, enums := refs))];
        assert Shape(updated) == Shape(classes);
        classes := updated;
      }
    }
  }
}
