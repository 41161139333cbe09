/** Reading and writing the properties of JavaScript objects. */
module JsObjects {
  import opened Prelude
  import opened JsCanonical
  import opened JsNormalize

  function Lookup(props: seq<Prop>, key: string): Option<Js> {
    if props == [] then None else if props[0].key == key then Some(props[0].value) else Lookup(props[1..], key)
  }

  /** `value?.[key]` for a key that no built-in prototype carries. */
  function Own(v: Js, key: string): Js {
    if !v.Obj? then Undefined else match Lookup(v.props, key) case Some(value) => value case None => Undefined
  }

  function Strings(texts: seq<string>): Js { Arr(seq(|texts|, i requires 0 <= i < |texts| => Str(texts[i]))) }

  /** The same read of a value that `normalize` returned, in which `__proto__` stands for the prototype. */
  function Read(v: Js, key: string): Js {
    if !v.Obj? then Undefined
    else match Lookup(v.props, key)
      case Some(value) => value
      case None => ReadPrototype(v.props, key)
  }

  function ReadPrototype(props: seq<Prop>, key: string): Js {
    if props == [] then Undefined else if props[0].key == PROTO then Read(props[0].value, key) else ReadPrototype(props[1..], key)
  }

  predicate Truthy(v: Js) {
    !v.Undefined? && !v.NullValue? && v != Boolean(false) && v != Num("0") && v != Str("")
  }

  lemma {:induction false} LookupAt(props: seq<Prop>, i: nat)
    requires i < |props| && KeysDistinct(props)
    ensures Lookup(props, props[i].key) == Some(props[i].value)
  {
    if i > 0 {
      LookupAt(props[1..], i - 1);
    }
  }

  lemma {:induction false} LookupFinds(props: seq<Prop>, key: string)
    ensures Lookup(props, key).Some? ==> Prop(key, Lookup(props, key).value) in props
    ensures Lookup(props, key) == None ==> forall p :: p in props ==> p.key != key
  {
    if props != [] {
      LookupFinds(props[1..], key);
      assert props == [props[0]] + props[1..];
    }
  }

  lemma LookupIs(props: seq<Prop>, p: Prop)
    requires KeysDistinct(props) && p in props
    ensures Lookup(props, p.key) == Some(p.value)
  {
    var i :| 0 <= i < |props| && props[i] == p;
    LookupAt(props, i);
  }

  lemma {:induction false} ReplaceAt(props: seq<Prop>, i: nat, p: Prop)
    requires i < |props| && KeysDistinct(props) && props[i].key == p.key
    ensures Replace(props, p) == props[i := p]
  {
    if i > 0 {
      ReplaceAt(props[1..], i - 1, p);
      assert [props[0]] + props[1..][i - 1 := p] == props[i := p];
    }
  }

  /** `object[key] = value` where the key is already there. */
  lemma AssignAt(props: seq<Prop>, i: nat, p: Prop)
    requires i < |props| && KeysDistinct(props) && props[i].key == p.key && p.key != PROTO
    ensures Assign(props, p) == props[i := p]
  {
    ReplaceAt(props, i, p);
    assert props[i] in props;
  }

  lemma OwnIsLookup(v: Js, key: string)
    requires v.Obj?
    ensures Own(v, key) == match Lookup(v.props, key) case Some(value) => value case None => Undefined
  {}

  lemma OwnIsWellFormed(v: Js, key: string)
    requires WellFormed(v)
    ensures WellFormed(Own(v, key))
  {
    if v.Obj? {
      LookupFinds(v.props, key);
    }
  }

  lemma OwnDoesNotClash(v: Js, key: string)
    requires !Clashes(v)
    ensures !Clashes(Own(v, key))
  {
    if v.Obj? {
      LookupFinds(v.props, key);
    }
  }

  /** Normalizing an object keeps its strings where they are. */
  lemma NormalOwn(v: Js, key: string)
    requires WellFormed(v) && key != PROTO && Own(v, key).Str?
    ensures Own(NormalForm(v), key) == Own(v, key)
  {
    var p := Prop(key, Own(v, key));
    LookupFinds(v.props, key);
    assert NormalForm(p.value) == p.value;
    NormalFormHolds(v.props);
    hide NormalForm, Build, NormalForms;
    LookupIs(NormalForm(v).props, p);
  }
}
