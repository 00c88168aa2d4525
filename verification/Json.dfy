/** JSON values, as the parser delivers them. The parser itself is a parameter
    of the model. */
module Json {
  import opened Prelude

  /** An integer in the range of `u64` or `i64`, or a floating-point number. */
  datatype Number = Int(n: int) | Float(r: real)

  datatype Value =
    | Null
    | Bool(b: bool)
    | Num(number: Number)
    | Str(s: string)
    | Arr(items: seq<Value>)
    | Obj(members: map<string, Value>)
  {
    /** `get` on anything but an object finds nothing. */
    function Get(key: string): Option<Value> {
      if Obj? && key in members then Some(members[key]) else None
    }

    function GetStr(key: string): Option<string> {
      match Get(key)
      case Some(Str(s)) => Some(s)
      case _ => None
    }

    function GetU64(key: string): Option<nat> {
      match Get(key)
      case Some(Num(Int(n))) => if 0 <= n < 0x1_0000_0000_0000_0000 then Some(n) else None
      case _ => None
    }

    function GetI64(key: string): Option<i64> {
      match Get(key)
      case Some(Num(Int(n))) =>
        if -0x8000_0000_0000_0000 <= n < 0x8000_0000_0000_0000 then Some(n) else None
      case _ => None
    }

    function GetArray(key: string): Option<seq<Value>> {
      match Get(key)
      case Some(Arr(items)) => Some(items)
      case _ => None
    }

    function GetObject(key: string): Option<map<string, Value>> {
      match Get(key)
      case Some(Obj(members)) => Some(members)
      case _ => None
    }
  }

  type Parser = string -> Option<Value>

  /** A lookup finds what an object holds under the key if it has the wanted type,
      an integer only within the range of that type, and otherwise nothing. */
  lemma LookupsExactly(v: Value, key: string)
    ensures var found := v.Obj? && key in v.members;
            && v.Get(key) == (if found then Some(v.members[key]) else None)
            && (forall s :: v.GetStr(key) == Some(s) <==> found && v.members[key] == Str(s))
            && (forall n :: v.GetU64(key) == Some(n) <==>
                  found && v.members[key] == Num(Int(n)) && 0 <= n < 0x1_0000_0000_0000_0000)
            && (forall n: int :: v.GetI64(key) == Some(n) <==>
                  && found && v.members[key] == Num(Int(n))
                  && -0x8000_0000_0000_0000 <= n < 0x8000_0000_0000_0000)
            && (forall a :: v.GetArray(key) == Some(a) <==> found && v.members[key] == Arr(a))
            && (forall o :: v.GetObject(key) == Some(o) <==> found && v.members[key] == Obj(o))
  {
  }
}
