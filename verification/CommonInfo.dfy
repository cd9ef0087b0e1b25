/**
 * The annotation record shared by variant calls and genotype calls
 * (`htsjdk.variant.variantcontext.CommonInfo`): a name, a log10 error
 * score, a tri-state filter set and an attribute bag.
 *
 * The Java class is mutable. Here a record is an immutable value, and each
 * mutator that can throw returns a `Completion`: the record as the call
 * leaves it, plus the exception the call threw, if any. `clearAttributes`
 * and `removeAttribute`, which cannot throw, return the record itself. A throw from a batch operation can leave
 * part of the batch applied, which is why the failing case carries a record
 * too.
 */
module VariantContext {
  import opened Wrappers
  import opened JavaLang

  /** The stored score that means "no error estimate" (`NO_LOG10_PERROR`). */
  const NO_LOG10_PERROR: real := 1.0

  /**
   * An attribute value. The Java map holds arbitrary `Object`s; the typed
   * readers only distinguish these cases. `Array` is an `Object[]`; `Other`
   * stands for any other object, told apart by an identity.
   */
  datatype Value =
    | Int(i: Int32)
    | Dbl(d: Double)
    | Bool(b: bool)
    | Str(s: string)
    | List(elems: seq<Value>)
    | Array(elems: seq<Value>)
    | Null
    | Other(id: nat)

  /**
   * Which storage backs the attribute map: the shared immutable empty
   * singleton (`NO_ATTRIBUTES`) or a map of the record's own.
   */
  datatype Storage = Shared | Owned

  datatype CommonInfo = CommonInfo(
    name: Option<string>,
    log10PError: Double,
    filters: Option<set<string>>,
    attributes: map<string, Value>,
    storage: Storage)

  /** How a mutating call completes, with the record as it is afterwards. */
  datatype Completion =
    | Normal(after: CommonInfo)
    | Abrupt(error: Exception, after: CommonInfo)

  /** The shared singleton is never written: while a record uses it, it has no attributes. */
  predicate Valid(ci: CommonInfo) {
    ci.storage.Shared? ==> ci.attributes == map[]
  }

  /** The entry enumeration of a Java `Map`, in whatever order the map walks it: keys are distinct. */
  predicate DistinctKeys(es: seq<(string, Value)>) {
    forall i, j :: 0 <= i < j < |es| ==> es[i].0 != es[j].0
  }

  type Entries = es: seq<(string, Value)> | DistinctKeys(es)

  /** The map built by putting the entries one after another. */
  function ToMap(es: seq<(string, Value)>): map<string, Value>
  {
    if es == [] then map[]
    else ToMap(es[..|es| - 1])[es[|es| - 1].0 := es[|es| - 1].1]
  }

  // ---------------------------------------------------------------------
  // Construction and name
  // ---------------------------------------------------------------------

  /** A positive score other than `NO_LOG10_PERROR`, which `setLog10PError` rejects. */
  predicate PositiveNonSentinel(x: Double) {
    x.PosInf? || (x.Finite? && x.v > 0.0 && x.v != NO_LOG10_PERROR)
  }

  /**
   * The constructor. It starts from the sentinel score, so of the score
   * checks only the one on the argument's sign can fire: a NaN or -infinity
   * argument is accepted, while +infinity is refused as positive. `null` or
   * empty attributes keep the shared singleton; `filters` is stored as
   * given, `null` included.
   */
  function New(
    name: Option<string>,
    log10PError: Double,
    filters: Option<set<string>>,
    attributes: Option<map<string, Value>>
  ): (r: Result<CommonInfo, Exception>)
    ensures r.Err? <==> PositiveNonSentinel(log10PError)
    ensures r.Err? ==> r.error == IllegalArgument
    ensures r.Ok? ==> Valid(r.value)
    ensures r.Ok? ==> r.value.name == name && r.value.filters == filters
    ensures r.Ok? ==> r.value.log10PError == log10PError
    ensures r.Ok? ==> r.value.attributes == (if attributes.None? then map[] else attributes.value)
    ensures r.Ok? ==> (r.value.storage.Shared? <==> r.value.attributes == map[])
  {
    var blank := CommonInfo(name, Finite(NO_LOG10_PERROR), None, map[], Shared);
    match SetLog10PError(blank, log10PError)
    case Abrupt(e, _) => Err(e)
    case Normal(ci) =>
      if attributes.Some? && |attributes.value| != 0 then
        Ok(ci.(filters := filters, attributes := attributes.value, storage := Owned))
      else
        Ok(ci.(filters := filters))
  }

  /** `getName`: the stored name; setting it to itself changes nothing. */
  function GetName(ci: CommonInfo): (r: Option<string>)
    ensures r.Some? ==> SetName(ci, r) == Normal(ci)
  {
    ci.name
  }

  /** `setName`: a null name is refused, and nothing changes. */
  function SetName(ci: CommonInfo, name: Option<string>): (r: Completion)
    ensures r.Normal? <==> name.Some?
    ensures r.Abrupt? ==> r.error == IllegalArgument && r.after == ci
    ensures r.Normal? ==> r.after.name == name
    ensures r.after == ci.(name := r.after.name)
  {
    if name.None? then Abrupt(IllegalArgument, ci)
    else Normal(ci.(name := name))
  }

  // ---------------------------------------------------------------------
  // Filters
  // ---------------------------------------------------------------------

  function GetFiltersMaybeNull(ci: CommonInfo): Option<set<string>> {
    ci.filters
  }

  /** `getFilters`: the filter set, with "not evaluated" shown as empty. */
  function GetFilters(ci: CommonInfo): set<string> {
    if ci.filters.None? then {} else ci.filters.value
  }

  predicate FiltersWereApplied(ci: CommonInfo) {
    ci.filters.Some?
  }

  predicate IsFiltered(ci: CommonInfo) {
    ci.filters.Some? && ci.filters.value != {}
  }

  predicate IsNotFiltered(ci: CommonInfo) {
    !IsFiltered(ci)
  }

  /**
   * `addFilter`: a null or already present name throws IllegalArgument and
   * changes nothing; otherwise the name joins the set, which is created if
   * filters had not been evaluated.
   */
  function AddFilter(ci: CommonInfo, filter: Option<string>): (r: Completion)
    ensures r.Normal? <==> filter.Some? && filter.value !in GetFilters(ci)
    ensures r.Abrupt? ==> r.error == IllegalArgument && r.after == ci
    ensures r.Normal? ==> IsFiltered(r.after)
    ensures r.Normal? ==> GetFilters(r.after) == GetFilters(ci) + {filter.value}
    ensures r.Normal? ==> |GetFilters(r.after)| == |GetFilters(ci)| + 1
    ensures r.after == ci.(filters := r.after.filters)
  {
    if filter.None? then Abrupt(IllegalArgument, ci)
    else if filter.value in GetFilters(ci) then Abrupt(IllegalArgument, ci)
    else
      var current := if ci.filters.None? then {} else ci.filters.value;
      Normal(ci.(filters := Some(current + {filter.value})))
  }

  /** The names a batch carries, null entries aside. */
  function Named(fs: seq<Option<string>>): set<string> {
    if fs == [] then {}
    else
      var last := fs[|fs| - 1];
      Named(fs[..|fs| - 1]) + (if last.Some? then {last.value} else {})
  }

  /**
   * Adding the entries of `fs` one by one to the set `s` never throws: each
   * is non-null, not in `s`, and not a repeat of an earlier entry.
   */
  predicate Addable(s: set<string>, fs: seq<Option<string>>) {
    forall i :: 0 <= i < |fs| ==> fs[i].Some? && fs[i].value !in s && fs[i] !in fs[..i]
  }

  /** The filter field once every entry of `fs` has been added to `ci`. */
  function FiltersAfter(ci: CommonInfo, fs: seq<Option<string>>): Option<set<string>> {
    if fs == [] then ci.filters else Some(GetFilters(ci) + Named(fs))
  }

  /** The loop of `addFilters`: `addFilter` on each entry in order, stopping at the first throw. */
  function AddEach(ci: CommonInfo, fs: seq<Option<string>>): (r: Completion)
    decreases |fs|
    ensures r.after == ci.(filters := r.after.filters)
    ensures r.Abrupt? ==> r.error == IllegalArgument
    ensures r.Normal? ==> r.after.filters == FiltersAfter(ci, fs)
    ensures GetFilters(ci) <= GetFilters(r.after)
    ensures FiltersWereApplied(ci) ==> FiltersWereApplied(r.after)
  {
    if fs == [] then Normal(ci)
    else
      var init, last := fs[..|fs| - 1], fs[|fs| - 1];
      match AddEach(ci, init)
      case Abrupt(e, a) => Abrupt(e, a)
      case Normal(a) =>
        assert last.Some? ==> GetFilters(a) + {last.value} == GetFilters(ci) + Named(fs);
        AddFilter(a, last)
  }

  /**
   * `addFilters`: a null collection throws IllegalArgument; otherwise the
   * entries are added in the collection's enumeration order, and a throw
   * leaves the entries before it added.
   */
  function AddFilters(ci: CommonInfo, fs: Option<seq<Option<string>>>): (r: Completion)
    ensures fs.None? ==> r == Abrupt(IllegalArgument, ci)
    ensures r.Abrupt? ==> r.error == IllegalArgument
    ensures r.Normal? ==> r.after.filters == FiltersAfter(ci, fs.value)
    ensures r.after == ci.(filters := r.after.filters)
    ensures GetFilters(ci) <= GetFilters(r.after)
    ensures FiltersWereApplied(ci) ==> FiltersWereApplied(r.after)
  {
    match fs
    case None => Abrupt(IllegalArgument, ci)
    case Some(xs) => AddEach(ci, xs)
  }

  // ---------------------------------------------------------------------
  // The error score
  // ---------------------------------------------------------------------

  /** `hasLog10PError`: the stored score is not the sentinel (a stored NaN counts as having one). */
  predicate HasLog10PError(ci: CommonInfo)
    ensures HasLog10PError(ci) <==> ci.log10PError != Finite(NO_LOG10_PERROR)
  {
    NotEqual(ci.log10PError, NO_LOG10_PERROR)
  }

  function GetLog10PError(ci: CommonInfo): Double {
    ci.log10PError
  }

  /**
   * `setLog10PError`. The argument is refused when positive and not the
   * sentinel, but the NaN and infinity checks look at the score already
   * stored, not at the argument: a NaN or -infinity argument is stored, and
   * every later call then throws. (+infinity is refused as positive.)
   */
  function SetLog10PError(ci: CommonInfo, x: Double): (r: Completion)
    ensures r.Abrupt? <==> PositiveNonSentinel(x) || !ci.log10PError.Finite?
    ensures r.Abrupt? ==> r.error == IllegalArgument && r.after == ci
    ensures r.Normal? ==> r.after == ci.(log10PError := x)
  {
    if GreaterThan(x, 0.0) && NotEqual(x, NO_LOG10_PERROR) then Abrupt(IllegalArgument, ci)
    else if IsInfinite(ci.log10PError) then Abrupt(IllegalArgument, ci)
    else if IsNaN(ci.log10PError) then Abrupt(IllegalArgument, ci)
    else Normal(ci.(log10PError := x))
  }

  // ---------------------------------------------------------------------
  // Attribute mutators
  // ---------------------------------------------------------------------

  /** `clearAttributes`: a fresh empty map of the record's own, never the shared singleton. */
  function ClearAttributes(ci: CommonInfo): (r: CommonInfo)
    ensures GetNumAttributes(r) == 0 && Valid(r)
    ensures r.storage.Owned?
    ensures r == ci.(attributes := r.attributes, storage := r.storage)
  {
    ci.(attributes := map[], storage := Owned)
  }

  /**
   * `putAttribute(key, value, allowOverwrites)`: without permission to
   * overwrite, a key already present throws IllegalState and nothing
   * changes; otherwise the key is bound to the value (storage promoted).
   */
  function PutAttribute(ci: CommonInfo, key: string, value: Value, allowOverwrites: bool): (r: Completion)
    ensures r.Abrupt? <==> !allowOverwrites && HasAttribute(ci, key)
    ensures r.Abrupt? ==> r.error == IllegalState && r.after == ci
    ensures r.Normal? ==> HasAttribute(r.after, key) && r.after.attributes[key] == value
    ensures r.Normal? ==> r.after.attributes.Keys == ci.attributes.Keys + {key}
    ensures r.Normal? ==> forall k :: k in ci.attributes && k != key ==> r.after.attributes[k] == ci.attributes[k]
    ensures r.Normal? ==> r.after.storage.Owned?
    ensures r.after == ci.(attributes := r.after.attributes, storage := r.after.storage)
  {
    if !allowOverwrites && HasAttribute(ci, key) then Abrupt(IllegalState, ci)
    else Normal(ci.(attributes := ci.attributes[key := value], storage := Owned))
  }

  /** The two-argument `putAttribute(key, value)`: never overwrites. */
  function PutNewAttribute(ci: CommonInfo, key: string, value: Value): (r: Completion)
    ensures r.Abrupt? <==> HasAttribute(ci, key)
    ensures r.Abrupt? ==> r.error == IllegalState && r.after == ci
    ensures r.Normal? ==> r.after.attributes == ci.attributes[key := value]
    ensures r.Normal? ==> r.after.storage.Owned?
    ensures r.after == ci.(attributes := r.after.attributes, storage := r.after.storage)
  {
    PutAttribute(ci, key, value, false)
  }

  /**
   * `removeAttribute`: the key is gone afterwards, whether or not it was
   * there; the storage is promoted even when nothing is removed.
   */
  function RemoveAttribute(ci: CommonInfo, key: string): (r: CommonInfo)
    ensures !HasAttribute(r, key)
    ensures r.attributes.Keys == ci.attributes.Keys - {key}
    ensures forall k :: k in r.attributes ==> r.attributes[k] == ci.attributes[k]
    ensures GetNumAttributes(r) == GetNumAttributes(ci) - (if HasAttribute(ci, key) then 1 else 0)
    ensures r.storage.Owned?
    ensures r == ci.(attributes := r.attributes, storage := r.storage)
  {
    ci.(attributes := ci.attributes - {key}, storage := Owned)
  }

  /** The strict loop of `putAttributes`: `putAttribute(k, v, false)` per entry, stopping at the first throw. */
  function PutEach(ci: CommonInfo, es: seq<(string, Value)>): (r: Completion)
    decreases |es|
    ensures r.after == ci.(attributes := r.after.attributes, storage := r.after.storage)
    ensures r.Abrupt? ==> r.error == IllegalState
    ensures r.Normal? ==> r.after.attributes == ci.attributes + ToMap(es)
    ensures ci.attributes.Keys <= r.after.attributes.Keys
    ensures r.after.storage.Shared? ==> r.after == ci
  {
    if es == [] then Normal(ci)
    else
      var init, last := es[..|es| - 1], es[|es| - 1];
      match PutEach(ci, init)
      case Abrupt(e, a) => Abrupt(e, a)
      case Normal(a) =>
        assert (ci.attributes + ToMap(init))[last.0 := last.1] == ci.attributes + ToMap(es);
        PutAttribute(a, last.0, last.1, false)
  }

  /**
   * `putAttributes`: a null map changes nothing. When the record has no
   * attributes the entries are copied in without checks; otherwise each is
   * put strictly, so a key already present throws IllegalState with the
   * entries enumerated before it already put.
   */
  function PutAttributes(ci: CommonInfo, m: Option<Entries>): (r: Completion)
    ensures m.None? ==> r == Normal(ci)
    ensures r.Abrupt? ==> r.error == IllegalState && ci.attributes != map[]
    ensures r.Normal? && m.Some? ==> r.after.attributes == ci.attributes + ToMap(m.value)
    ensures ci.attributes.Keys <= r.after.attributes.Keys
    ensures r.after == ci.(attributes := r.after.attributes, storage := r.after.storage)
    ensures Valid(ci) ==> Valid(r.after)
  {
    match m
    case None => Normal(ci)
    case Some(es) =>
      if |ci.attributes| == 0 then
        assert ci.attributes + ToMap(es) == ToMap(es);
        Normal(ci.(attributes := ci.attributes + ToMap(es), storage := Owned))
      else
        PutEach(ci, es)
  }

  /** `setAttributes`: clear, then put. It cannot throw, and leaves exactly the given entries. */
  function SetAttributes(ci: CommonInfo, m: Option<Entries>): (r: Completion)
    ensures r.Normal?
    ensures r.after.attributes == (if m.None? then map[] else ToMap(m.value))
    ensures r.after.storage.Owned?
    ensures r.after == ci.(attributes := r.after.attributes, storage := r.after.storage)
  {
    PutAttributes(ClearAttributes(ci), m)
  }

  // ---------------------------------------------------------------------
  // Attribute readers
  // ---------------------------------------------------------------------

  /**
   * `hasAttribute`: the key is bound, to `null` or not. A non-null read
   * implies presence; `PutNullIsPresent` shows a `null` binding is present too.
   */
  predicate HasAttribute(ci: CommonInfo, key: string)
    ensures GetAttribute(ci, key) != Null ==> HasAttribute(ci, key)
  {
    key in ci.attributes
  }

  /** `getNumAttributes`: the number of bound keys; zero exactly when no key is bound. */
  function GetNumAttributes(ci: CommonInfo): (n: nat)
    ensures n == |GetAttributes(ci)|
    ensures n == 0 <==> forall k :: !HasAttribute(ci, k)
  {
    |ci.attributes|
  }

  /** `getAttributes`: the bindings; its keys are the present ones and each reads back through `getAttribute`. */
  function GetAttributes(ci: CommonInfo): (m: map<string, Value>)
    ensures forall k :: k in m <==> HasAttribute(ci, k)
    ensures forall k :: k in m ==> GetAttribute(ci, k) == m[k]
  {
    ci.attributes
  }

  /** `getAttribute(key)`: `null` both for a missing key and for a key bound to `null`. */
  function GetAttribute(ci: CommonInfo, key: string): Value {
    if key in ci.attributes then ci.attributes[key] else Null
  }

  /** `getAttribute(key, default)`: the default only when the key is missing. */
  function GetAttributeOrDefault(ci: CommonInfo, key: string, default: Value): (r: Value)
    ensures HasAttribute(ci, key) ==> r == GetAttribute(ci, key)
    ensures r != default ==> HasAttribute(ci, key)
  {
    if HasAttribute(ci, key) then ci.attributes[key] else default
  }

  /**
   * `getAttributeAsList`: no elements for a null value, a list as it is,
   * the elements of an array, and any other value as a one-element list.
   */
  function GetAttributeAsList(ci: CommonInfo, key: string): (r: seq<Value>)
    ensures !HasAttribute(ci, key) ==> r == []
    ensures r == [] ==> GetAttribute(ci, key) in {Null, List([]), Array([])}
  {
    match GetAttribute(ci, key)
    case Null => []
    case List(xs) => xs
    case Array(xs) => xs
    case o => [o]
  }

  /**
   * `getAttributeAsString`: the default for a null value, a string as it
   * is, anything else rendered by `toString` (`String.valueOf`).
   */
  function GetAttributeAsString(ci: CommonInfo, key: string, default: string, toString: Value -> string): (r: string)
    ensures GetAttribute(ci, key) == Null ==> r == default
    ensures GetAttribute(ci, key).Str? ==> r == GetAttribute(ci, key).s
    ensures var x := GetAttribute(ci, key); x != Null && !x.Str? ==> r == toString(x)
  {
    match GetAttribute(ci, key)
    case Null => default
    case Str(s) => s
    case o => toString(o)
  }

  /**
   * `getAttributeAsInt`: the default for a null value or the missing-value
   * token `missing` (`VCFConstants.MISSING_VALUE_v4`), an Integer as it is,
   * a string parsed by `parseInt` (`Integer.valueOf`, NumberFormat when it
   * refuses), and ClassCast for anything else.
   */
  function GetAttributeAsInt(
    ci: CommonInfo, key: string, default: Int32,
    missing: string, parseInt: string -> Option<Int32>
  ): (r: Result<Int32, Exception>)
    ensures !HasAttribute(ci, key) ==> r == Ok(default)
    ensures r.Err? ==> HasAttribute(ci, key) && (r.error == ClassCast || r.error == NumberFormat)
    ensures r.Err? && r.error == NumberFormat ==> GetAttribute(ci, key).Str?
    ensures GetAttribute(ci, key) == Str(missing) ==> r == Ok(default)
    ensures GetAttribute(ci, key).Int? ==> r == Ok(GetAttribute(ci, key).i)
    ensures var x := GetAttribute(ci, key);
      x.Str? && x != Str(missing) ==> r == (if parseInt(x.s).Some? then Ok(parseInt(x.s).value) else Err(NumberFormat))
    ensures var x := GetAttribute(ci, key);
      x != Null && !x.Int? && !x.Str? ==> r == Err(ClassCast)
  {
    var x := GetAttribute(ci, key);
    if x == Null || x == Str(missing) then Ok(default)
    else match x
      case Int(n) => Ok(n)
      case Str(s) => (match parseInt(s) case Some(n) => Ok(n) case None => Err(NumberFormat))
      case _ => Err(ClassCast)
  }

  /**
   * `getAttributeAsDouble`: the default for a null value, a Double as it
   * is, an Integer widened, a string parsed by `parseDouble`
   * (`Double.valueOf`), and ClassCast for anything else.
   */
  function GetAttributeAsDouble(
    ci: CommonInfo, key: string, default: Double, parseDouble: string -> Option<Double>
  ): (r: Result<Double, Exception>)
    ensures !HasAttribute(ci, key) ==> r == Ok(default)
    ensures r.Err? ==> HasAttribute(ci, key) && (r.error == ClassCast || r.error == NumberFormat)
    ensures r.Err? && r.error == NumberFormat ==> GetAttribute(ci, key).Str?
    ensures GetAttribute(ci, key).Dbl? ==> r == Ok(GetAttribute(ci, key).d)
    ensures GetAttribute(ci, key).Int? ==> r == Ok(Finite(GetAttribute(ci, key).i as real))
    ensures var x := GetAttribute(ci, key);
      x.Str? ==> r == (if parseDouble(x.s).Some? then Ok(parseDouble(x.s).value) else Err(NumberFormat))
    ensures var x := GetAttribute(ci, key);
      x != Null && !x.Dbl? && !x.Int? && !x.Str? ==> r == Err(ClassCast)
  {
    match GetAttribute(ci, key)
    case Null => Ok(default)
    case Dbl(d) => Ok(d)
    case Int(n) => Ok(Finite(n as real))
    case Str(s) => (match parseDouble(s) case Some(d) => Ok(d) case None => Err(NumberFormat))
    case _ => Err(ClassCast)
  }

  /**
   * `getAttributeAsBoolean`: the default for a null value, a Boolean as it
   * is, a string read by `parseBool` (`Boolean.valueOf`, which never
   * throws), and ClassCast for anything else.
   */
  function GetAttributeAsBoolean(
    ci: CommonInfo, key: string, default: bool, parseBool: string -> bool
  ): (r: Result<bool, Exception>)
    ensures !HasAttribute(ci, key) ==> r == Ok(default)
    ensures r.Err? ==> HasAttribute(ci, key) && r.error == ClassCast
    ensures GetAttribute(ci, key).Str? ==> r == Ok(parseBool(GetAttribute(ci, key).s))
    ensures GetAttribute(ci, key).Bool? ==> r == Ok(GetAttribute(ci, key).b)
    ensures var x := GetAttribute(ci, key);
      x != Null && !x.Bool? && !x.Str? ==> r == Err(ClassCast)
  {
    match GetAttribute(ci, key)
    case Null => Ok(default)
    case Bool(b) => Ok(b)
    case Str(s) => Ok(parseBool(s))
    case _ => Err(ClassCast)
  }
}
