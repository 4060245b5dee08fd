/** The dictionaries the model classes are read from and written to: JSON-like
    values (what `to_dict` produces and `from_dict` accepts), the exceptions
    the agents raise, and the typed readers behind every `from_dict`.

    `data.get(key)` gives None both for a missing key and for an explicit
    null; `data.get(key, default)` gives the default only for a missing key.
    A reader rejects a value of the wrong kind with `WrongType(key)`. */
module PyValues {
  import opened Wrappers

  datatype Value =
    | JNull
    | JBool(b: bool)
    | JInt(i: int)
    | JReal(r: real)
    | JStr(s: string)
    | JList(items: seq<Value>)
    | JObject(fields: map<string, Value>)

  type Dict = map<string, Value>

  /** The exceptions the modelled code can raise. */
  datatype PyError =
    | KeyError(key: string)   // `d[key]` on a missing key
    | TypeError               // `in` on None, `x in None`, `None.lower` via a comparison
    | AttributeError          // `.lower()` on a value that is not a string
    | ValueError              // `datetime.fromisoformat` on a malformed string

  /** A field `from_dict` could not store with the type the class declares. */
  datatype DecodeError = WrongType(key: string)

  /** `data.get(key)`: None for a missing key. */
  function Get(d: Dict, key: string): (v: Value)
    ensures key !in d ==> v == JNull
    ensures key in d ==> v == d[key]
  {
    if key in d then d[key] else JNull
  }

  function OptStrValue(o: Option<string>): Value
  {
    match o
    case None => JNull
    case Some(s) => JStr(s)
  }

  function OptDictValue(o: Option<Dict>): Value
  {
    match o
    case None => JNull
    case Some(m) => JObject(m)
  }

  function OptListValue(o: Option<seq<Value>>): Value
  {
    match o
    case None => JNull
    case Some(l) => JList(l)
  }

  function StrListValue(l: seq<string>): (v: Value)
    ensures v.JList? && |v.items| == |l|
    ensures forall k :: 0 <= k < |l| ==> v.items[k] == JStr(l[k])
  {
    JList(seq(|l|, k requires 0 <= k < |l| => JStr(l[k])))
  }

  // What each reader accepts: the key is missing or holds a value of the
  // field's kind (for `data.get(key)` an explicit null is accepted too).

  predicate OptStrOk(d: Dict, key: string) { Get(d, key).JNull? || Get(d, key).JStr? }
  predicate OptDictOk(d: Dict, key: string) { Get(d, key).JNull? || Get(d, key).JObject? }
  predicate OptListOk(d: Dict, key: string) { Get(d, key).JNull? || Get(d, key).JList? }
  predicate StrOk(d: Dict, key: string) { key in d ==> d[key].JStr? }
  predicate IntOk(d: Dict, key: string) { key in d ==> d[key].JInt? }
  predicate BoolOk(d: Dict, key: string) { key in d ==> d[key].JBool? }
  predicate RealOk(d: Dict, key: string) { key in d ==> d[key].JReal? || d[key].JInt? }
  predicate StrListOk(d: Dict, key: string)
  {
    key in d ==> d[key].JList? && forall k :: 0 <= k < |d[key].items| ==> d[key].items[k].JStr?
  }

  /** The string `data.get(key)` gives, None for a missing key or a null. */
  function OptStrAt(d: Dict, key: string): Option<string>
  {
    if Get(d, key).JStr? then Some(Get(d, key).s) else None
  }

  /** `data.get(key)` for a field typed `str` (or Optional[str]). */
  function ReadOptStr(d: Dict, key: string): (r: Result<Option<string>, DecodeError>)
    ensures r.Success? <==> OptStrOk(d, key)
    ensures r.Success? ==> r.value == OptStrAt(d, key)
  {
    match Get(d, key)
    case JNull => Success(None)
    case JStr(s) => Success(Some(s))
    case _ => Failure(WrongType(key))
  }

  /** `data.get(key, default)` for a field typed `str`. */
  function ReadStr(d: Dict, key: string, default: string): (r: Result<string, DecodeError>)
    ensures key !in d ==> r == Success(default)
    ensures key in d ==> (r.Success? <==> d[key].JStr?)
    ensures key in d && d[key].JStr? ==> r.value == d[key].s
  {
    if key !in d then Success(default)
    else match d[key]
      case JStr(s) => Success(s)
      case _ => Failure(WrongType(key))
  }

  /** `data.get(key, default)` for a field typed `int`. */
  function ReadInt(d: Dict, key: string, default: int): (r: Result<int, DecodeError>)
    ensures key !in d ==> r == Success(default)
    ensures key in d ==> (r.Success? <==> d[key].JInt?)
    ensures key in d && d[key].JInt? ==> r.value == d[key].i
  {
    if key !in d then Success(default)
    else match d[key]
      case JInt(i) => Success(i)
      case _ => Failure(WrongType(key))
  }

  /** `data.get(key, default)` for a field typed `bool`. */
  function ReadBool(d: Dict, key: string, default: bool): (r: Result<bool, DecodeError>)
    ensures key !in d ==> r == Success(default)
    ensures key in d ==> (r.Success? <==> d[key].JBool?)
    ensures key in d && d[key].JBool? ==> r.value == d[key].b
  {
    if key !in d then Success(default)
    else match d[key]
      case JBool(b) => Success(b)
      case _ => Failure(WrongType(key))
  }

  /** `data.get(key, default)` for a field typed `float`; an integer is taken
      at its value. */
  function ReadReal(d: Dict, key: string, default: real): (r: Result<real, DecodeError>)
    ensures key !in d ==> r == Success(default)
    ensures key in d ==> (r.Success? <==> d[key].JReal? || d[key].JInt?)
    ensures key in d && d[key].JReal? ==> r.value == d[key].r
    ensures key in d && d[key].JInt? ==> r.value == d[key].i as real
  {
    if key !in d then Success(default)
    else match d[key]
      case JReal(x) => Success(x)
      case JInt(i) => Success(i as real)
      case _ => Failure(WrongType(key))
  }

  /** The strings of a list of strings. */
  function Strings(items: seq<Value>): (r: Option<seq<string>>)
    ensures r.Some? <==> forall k :: 0 <= k < |items| ==> items[k].JStr?
    ensures r.Some? ==> |r.value| == |items| && forall k :: 0 <= k < |items| ==> items[k] == JStr(r.value[k])
  {
    if items == [] then Some([])
    else if !items[0].JStr? then None
    else match Strings(items[1..])
      case None => None
      case Some(rest) => Some([items[0].s] + rest)
  }

  /** `data.get(key, [])` for a field typed `List[str]`. */
  function ReadStrList(d: Dict, key: string): (r: Result<seq<string>, DecodeError>)
    ensures key !in d ==> r == Success([])
    ensures r.Success? <==> StrListOk(d, key)
    ensures r.Success? && key in d ==> d[key] == StrListValue(r.value)
  {
    if key !in d then Success([])
    else match d[key]
      case JList(items) =>
        (match Strings(items)
         case None => Failure(WrongType(key))
         case Some(l) =>
           assert StrListValue(l).items == items;
           Success(l))
      case _ => Failure(WrongType(key))
  }

  /** `data.get(key)` for a field typed `Optional[dict]`. */
  function ReadOptDict(d: Dict, key: string): (r: Result<Option<Dict>, DecodeError>)
    ensures r.Success? <==> OptDictOk(d, key)
    ensures r.Success? ==> OptDictValue(r.value) == Get(d, key)
  {
    match Get(d, key)
    case JNull => Success(None)
    case JObject(m) => Success(Some(m))
    case _ => Failure(WrongType(key))
  }

  /** `data.get(key)` for a field typed `Optional[list]`. */
  function ReadOptList(d: Dict, key: string): (r: Result<Option<seq<Value>>, DecodeError>)
    ensures r.Success? <==> OptListOk(d, key)
    ensures r.Success? ==> OptListValue(r.value) == Get(d, key)
  {
    match Get(d, key)
    case JNull => Success(None)
    case JList(l) => Success(Some(l))
    case _ => Failure(WrongType(key))
  }

  // Reading back what the writer produced gives the field back.

  lemma ReadOptStrOf(d: Dict, key: string, o: Option<string>)
    requires key in d && d[key] == OptStrValue(o)
    ensures ReadOptStr(d, key) == Success(o)
  {
  }

  lemma ReadStrOf(d: Dict, key: string, default: string, s: string)
    requires key in d && d[key] == JStr(s)
    ensures ReadStr(d, key, default) == Success(s)
  {
  }

  lemma ReadIntOf(d: Dict, key: string, default: int, i: int)
    requires key in d && d[key] == JInt(i)
    ensures ReadInt(d, key, default) == Success(i)
  {
  }

  lemma ReadBoolOf(d: Dict, key: string, default: bool, b: bool)
    requires key in d && d[key] == JBool(b)
    ensures ReadBool(d, key, default) == Success(b)
  {
  }

  lemma ReadRealOf(d: Dict, key: string, default: real, x: real)
    requires key in d && d[key] == JReal(x)
    ensures ReadReal(d, key, default) == Success(x)
  {
  }

  lemma ReadOptDictOf(d: Dict, key: string, o: Option<Dict>)
    requires key in d && d[key] == OptDictValue(o)
    ensures ReadOptDict(d, key) == Success(o)
  {
  }

  lemma ReadOptListOf(d: Dict, key: string, o: Option<seq<Value>>)
    requires key in d && d[key] == OptListValue(o)
    ensures ReadOptList(d, key) == Success(o)
  {
  }

  lemma ReadStrListOf(d: Dict, key: string, l: seq<string>)
    requires key in d && d[key] == StrListValue(l)
    ensures ReadStrList(d, key) == Success(l)
  {
    StringsOfValue(l);
  }

  /** Reading back a written list of strings gives the list back. */
  lemma {:induction false} StringsOfValue(l: seq<string>)
    ensures Strings(StrListValue(l).items) == Some(l)
  {
    var items := StrListValue(l).items;
    if l != [] {
      StringsOfValue(l[1..]);
      assert items[1..] == StrListValue(l[1..]).items;
      assert items[0] == JStr(l[0]);
      assert [l[0]] + l[1..] == l;
    }
  }
}
