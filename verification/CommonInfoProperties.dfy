/**
 * Properties of the `CommonInfo` model: the filter tri-state, the batch
 * operations as folds that stop at the first throw, the score quirk,
 * attribute round trips, and invariants kept by every sequence of calls.
 */
module CommonInfoProperties {
  import opened Wrappers
  import opened JavaLang
  import opened VariantContext

  // ---------------------------------------------------------------------
  // Filters
  // ---------------------------------------------------------------------

  /** The filter queries read one tri-state: not evaluated, passed (empty), failed (non-empty). */
  lemma FilterQueriesAgree(ci: CommonInfo)
    ensures FiltersWereApplied(ci) <==> GetFiltersMaybeNull(ci).Some?
    ensures FiltersWereApplied(ci) ==> GetFilters(ci) == GetFiltersMaybeNull(ci).value
    ensures !FiltersWereApplied(ci) ==> GetFilters(ci) == {}
    ensures IsFiltered(ci) <==> GetFilters(ci) != {}
    ensures IsFiltered(ci) ==> FiltersWereApplied(ci)
    ensures IsNotFiltered(ci) <==> !IsFiltered(ci)
  {
  }

  /** Adding a filter marks the record filtered, and adding the same name again throws. */
  lemma AddFilterTwiceThrows(ci: CommonInfo, f: string)
    requires AddFilter(ci, Some(f)).Normal?
    ensures IsFiltered(AddFilter(ci, Some(f)).after)
    ensures var a := AddFilter(ci, Some(f)).after;
      AddFilter(a, Some(f)) == Abrupt(IllegalArgument, a)
  {
  }

  /** A name is carried by a batch exactly when the batch holds it as a non-null entry. */
  lemma {:induction false} NamedHas(fs: seq<Option<string>>, x: string)
    ensures x in Named(fs) <==> Some(x) in fs
    decreases |fs|
  {
    if fs != [] {
      var init := fs[..|fs| - 1];
      NamedHas(init, x);
      assert fs == init + [fs[|fs| - 1]];
    }
  }

  /** Appending one entry to a batch that adds cleanly. */
  lemma AddableSnoc(s: set<string>, init: seq<Option<string>>, last: Option<string>)
    ensures Addable(s, init + [last])
        <==> Addable(s, init) && last.Some? && last.value !in s + Named(init)
  {
    var fs := init + [last];
    assert forall i :: 0 <= i < |init| ==> fs[i] == init[i] && fs[..i] == init[..i];
    assert fs[..|init|] == init;
    if last.Some? {
      NamedHas(init, last.value);
    }
  }

  /**
   * `addFilters` on a non-null batch completes normally exactly when every
   * entry is non-null, not already a filter, and not repeated in the batch.
   */
  lemma {:induction false} AddFiltersSucceedsIff(ci: CommonInfo, fs: seq<Option<string>>)
    ensures AddFilters(ci, Some(fs)).Normal? <==> Addable(GetFilters(ci), fs)
    decreases |fs|
  {
    if fs != [] {
      var init, last := fs[..|fs| - 1], fs[|fs| - 1];
      assert fs == init + [last];
      AddFiltersSucceedsIff(ci, init);
      AddableSnoc(GetFilters(ci), init, last);
    }
  }

  /**
   * When `addFilters` throws, it threw at the first entry that is null,
   * already a filter, or a repeat; every entry before it stays added.
   */
  lemma {:induction false} AddFiltersStopsAtFirstRejected(ci: CommonInfo, fs: seq<Option<string>>)
    requires AddFilters(ci, Some(fs)).Abrupt?
    ensures exists k :: (0 <= k < |fs|
      && Addable(GetFilters(ci), fs[..k])
      && (fs[k].None? || fs[k].value in GetFilters(ci) || fs[k] in fs[..k])
      && AddFilters(ci, Some(fs)).after.filters == FiltersAfter(ci, fs[..k]))
    decreases |fs|
  {
    var init, last := fs[..|fs| - 1], fs[|fs| - 1];
    assert fs == init + [last];
    if AddFilters(ci, Some(init)).Abrupt? {
      AddFiltersStopsAtFirstRejected(ci, init);
      var k :| 0 <= k < |init|
        && Addable(GetFilters(ci), init[..k])
        && (init[k].None? || init[k].value in GetFilters(ci) || init[k] in init[..k])
        && AddFilters(ci, Some(init)).after.filters == FiltersAfter(ci, init[..k]);
      assert fs[..k] == init[..k] && fs[k] == init[k];
    } else {
      AddFiltersSucceedsIff(ci, init);
      assert fs[..|init|] == init;
      if last.Some? {
        NamedHas(init, last.value);
      }
    }
  }

  // ---------------------------------------------------------------------
  // The error score
  // ---------------------------------------------------------------------

  /** A record built with the sentinel score has no error estimate. */
  lemma SentinelMeansNoEstimate(name: Option<string>, filters: Option<set<string>>, attributes: Option<map<string, Value>>)
    ensures New(name, Finite(NO_LOG10_PERROR), filters, attributes).Ok?
    ensures !HasLog10PError(New(name, Finite(NO_LOG10_PERROR), filters, attributes).value)
  {
  }

  /** A name given to the constructor or to `setName` reads back through `getName`. */
  lemma SetThenGetName(
    ci: CommonInfo, n: string,
    name: Option<string>, x: Double, filters: Option<set<string>>, attributes: Option<map<string, Value>>)
    ensures GetName(SetName(ci, Some(n)).after) == Some(n)
    ensures New(name, x, filters, attributes).Ok? ==> GetName(New(name, x, filters, attributes).value) == name
  {
  }

  /** A stored score reads back, and counts as an estimate unless it is the sentinel. */
  lemma SetThenGetLog10PError(ci: CommonInfo, x: Double)
    requires SetLog10PError(ci, x).Normal?
    ensures GetLog10PError(SetLog10PError(ci, x).after) == x
    ensures HasLog10PError(SetLog10PError(ci, x).after) <==> x != Finite(NO_LOG10_PERROR)
  {
  }

  /**
   * The check on the stored score instead of the argument: a NaN argument
   * is accepted while the stored score is finite, and from then on every
   * call throws, whatever its argument.
   */
  lemma NaNIsStoredThenBlocksEverySet(ci: CommonInfo, y: Double)
    requires ci.log10PError.Finite?
    ensures SetLog10PError(ci, NaN).Normal?
    ensures SetLog10PError(SetLog10PError(ci, NaN).after, y).Abrupt?
  {
  }

  // ---------------------------------------------------------------------
  // Single attributes
  // ---------------------------------------------------------------------

  /** A key bound without overwrite permission cannot be rebound without it, but can with it. */
  lemma OverwriteNeedsPermission(ci: CommonInfo, key: string, v1: Value, v2: Value)
    requires PutNewAttribute(ci, key, v1).Normal?
    ensures var a := PutNewAttribute(ci, key, v1).after;
      PutNewAttribute(a, key, v2) == Abrupt(IllegalState, a)
    ensures var a := PutNewAttribute(ci, key, v1).after;
      PutAttribute(a, key, v2, true).Normal? && GetAttribute(PutAttribute(a, key, v2, true).after, key) == v2
  {
  }

  /** A key bound to `null` is present, although it reads as `null` like a missing one. */
  lemma PutNullIsPresent(ci: CommonInfo, key: string, allowOverwrites: bool)
    requires PutAttribute(ci, key, Null, allowOverwrites).Normal?
    ensures var a := PutAttribute(ci, key, Null, allowOverwrites).after;
      HasAttribute(a, key) && GetAttribute(a, key) == Null
    ensures var a := RemoveAttribute(PutAttribute(ci, key, Null, allowOverwrites).after, key);
      !HasAttribute(a, key) && GetAttribute(a, key) == Null
  {
  }

  /** Putting a fresh key and removing it again gives back the original attributes. */
  lemma RemoveUndoesPut(ci: CommonInfo, key: string, v: Value, allowOverwrites: bool)
    requires !HasAttribute(ci, key)
    ensures PutAttribute(ci, key, v, allowOverwrites).Normal?
    ensures RemoveAttribute(PutAttribute(ci, key, v, allowOverwrites).after, key).attributes == ci.attributes
  {
    assert ci.attributes[key := v] - {key} == ci.attributes;
  }

  /** Each typed reader gives back a value of its own type that was just put. */
  lemma ReadersAfterPut(
    ci: CommonInfo, key: string, v: Value, allowOverwrites: bool,
    missing: string, parseInt: string -> Option<Int32>, parseDouble: string -> Option<Double>,
    parseBool: string -> bool, toString: Value -> string,
    dInt: Int32, dDouble: Double, dBool: bool, dString: string, dValue: Value)
    requires PutAttribute(ci, key, v, allowOverwrites).Normal?
    ensures var a := PutAttribute(ci, key, v, allowOverwrites).after;
      GetAttribute(a, key) == v && GetAttributeOrDefault(a, key, dValue) == v
    ensures var a := PutAttribute(ci, key, v, allowOverwrites).after;
      v.Int? ==> (GetAttributeAsInt(a, key, dInt, missing, parseInt) == Ok(v.i)
        && GetAttributeAsDouble(a, key, dDouble, parseDouble) == Ok(Finite(v.i as real)))
    ensures var a := PutAttribute(ci, key, v, allowOverwrites).after;
      v.Dbl? ==> GetAttributeAsDouble(a, key, dDouble, parseDouble) == Ok(v.d)
    ensures var a := PutAttribute(ci, key, v, allowOverwrites).after;
      v.Bool? ==> GetAttributeAsBoolean(a, key, dBool, parseBool) == Ok(v.b)
    ensures var a := PutAttribute(ci, key, v, allowOverwrites).after;
      v.Str? ==> GetAttributeAsString(a, key, dString, toString) == v.s
    ensures var a := PutAttribute(ci, key, v, allowOverwrites).after;
      (v.List? || v.Array?) ==> GetAttributeAsList(a, key) == v.elems
    ensures var a := PutAttribute(ci, key, v, allowOverwrites).after;
      (v.Int? || v.Dbl? || v.Bool? || v.Str? || v.Other?) ==> GetAttributeAsList(a, key) == [v]
  {
  }

  /**
   * A value put under a key and read back through a reader of another type
   * throws ClassCast, except that the string reader renders it instead.
   */
  lemma WrongTypeReadsThrow(
    ci: CommonInfo, key: string, v: Value, allowOverwrites: bool,
    missing: string, parseInt: string -> Option<Int32>, parseDouble: string -> Option<Double>,
    parseBool: string -> bool, toString: Value -> string,
    dInt: Int32, dDouble: Double, dBool: bool, dString: string)
    requires PutAttribute(ci, key, v, allowOverwrites).Normal?
    requires v != Null && !v.Str?
    ensures var a := PutAttribute(ci, key, v, allowOverwrites).after;
      GetAttributeAsString(a, key, dString, toString) == toString(v)
    ensures var a := PutAttribute(ci, key, v, allowOverwrites).after;
      !v.Int? ==> GetAttributeAsInt(a, key, dInt, missing, parseInt) == Err(ClassCast)
    ensures var a := PutAttribute(ci, key, v, allowOverwrites).after;
      !v.Int? && !v.Dbl? ==> GetAttributeAsDouble(a, key, dDouble, parseDouble) == Err(ClassCast)
    ensures var a := PutAttribute(ci, key, v, allowOverwrites).after;
      !v.Bool? ==> GetAttributeAsBoolean(a, key, dBool, parseBool) == Err(ClassCast)
  {
  }

  /**
   * A key bound to `null` is present: `getAttribute(key, default)` gives
   * the `null`, while every typed reader falls back to its default, exactly
   * as for a missing key.
   */
  lemma NullIsPresentButReadsAsDefault(
    ci: CommonInfo, key: string,
    missing: string, parseInt: string -> Option<Int32>, parseDouble: string -> Option<Double>,
    parseBool: string -> bool, toString: Value -> string,
    dInt: Int32, dDouble: Double, dBool: bool, dString: string, dValue: Value)
    requires HasAttribute(ci, key) && ci.attributes[key] == Null
    ensures GetAttributeOrDefault(ci, key, dValue) == Null
    ensures GetAttributeOrDefault(ci.(attributes := ci.attributes - {key}), key, dValue) == dValue
    ensures GetAttributeAsInt(ci, key, dInt, missing, parseInt) == Ok(dInt)
    ensures GetAttributeAsDouble(ci, key, dDouble, parseDouble) == Ok(dDouble)
    ensures GetAttributeAsBoolean(ci, key, dBool, parseBool) == Ok(dBool)
    ensures GetAttributeAsString(ci, key, dString, toString) == dString
    ensures GetAttributeAsList(ci, key) == []
  {
  }

  // ---------------------------------------------------------------------
  // Batches of attributes
  // ---------------------------------------------------------------------

  /** A key is bound in the map of some entries exactly when one of the entries has it. */
  lemma {:induction false} ToMapHas(es: seq<(string, Value)>, k: string)
    ensures k in ToMap(es) <==> exists i :: 0 <= i < |es| && es[i].0 == k
    decreases |es|
  {
    if es != [] {
      var init := es[..|es| - 1];
      ToMapHas(init, k);
      assert forall i :: 0 <= i < |init| ==> es[i] == init[i];
    }
  }

  /** The map of a `Map`'s entries binds each entry's key to its value, one binding per entry. */
  lemma {:induction false} ToMapOfEntries(es: seq<(string, Value)>)
    requires DistinctKeys(es)
    ensures forall i :: 0 <= i < |es| ==> es[i].0 in ToMap(es) && ToMap(es)[es[i].0] == es[i].1
    ensures |ToMap(es)| == |es|
    decreases |es|
  {
    if es != [] {
      var init, last := es[..|es| - 1], es[|es| - 1];
      assert DistinctKeys(init) by {
        assert forall i :: 0 <= i < |init| ==> es[i] == init[i];
      }
      ToMapOfEntries(init);
      ToMapHas(init, last.0);
      assert last.0 !in ToMap(init) by {
        assert forall i :: 0 <= i < |init| ==> init[i].0 == es[i].0 != last.0;
      }
      assert forall i :: 0 <= i < |init| ==> es[i] == init[i];
    }
  }

  /** The strict loop completes normally exactly when none of the keys is already present. */
  lemma {:induction false} PutEachSucceedsIff(ci: CommonInfo, es: seq<(string, Value)>)
    requires DistinctKeys(es)
    ensures PutEach(ci, es).Normal? <==> forall i :: 0 <= i < |es| ==> !HasAttribute(ci, es[i].0)
    decreases |es|
  {
    if es != [] {
      var init, last := es[..|es| - 1], es[|es| - 1];
      assert es == init + [last];
      PutEachSucceedsIff(ci, init);
      assert forall i :: 0 <= i < |init| ==> es[i] == init[i];
      ToMapHas(init, last.0);
      assert last.0 !in ToMap(init);
    }
  }

  /**
   * `putAttributes` on a non-null map completes normally exactly when none
   * of its keys is already present, on the unchecked path as on the strict
   * one.
   */
  lemma PutAttributesSucceedsIff(ci: CommonInfo, m: Entries)
    ensures PutAttributes(ci, Some(m)).Normal? <==> forall i :: 0 <= i < |m| ==> !HasAttribute(ci, m[i].0)
  {
    if |ci.attributes| != 0 {
      PutEachSucceedsIff(ci, m);
    }
  }

  /** When the strict loop throws, it threw at the first key already present, with every entry before it put. */
  lemma {:induction false} PutEachStopsAtFirstExistingKey(ci: CommonInfo, es: seq<(string, Value)>)
    requires DistinctKeys(es)
    requires PutEach(ci, es).Abrupt?
    ensures exists k :: (0 <= k < |es|
      && HasAttribute(ci, es[k].0)
      && (forall i :: 0 <= i < k ==> !HasAttribute(ci, es[i].0))
      && PutEach(ci, es).after.attributes == ci.attributes + ToMap(es[..k]))
    decreases |es|
  {
    var init, last := es[..|es| - 1], es[|es| - 1];
    assert es == init + [last];
    if PutEach(ci, init).Abrupt? {
      PutEachStopsAtFirstExistingKey(ci, init);
      var k :| 0 <= k < |init|
        && HasAttribute(ci, init[k].0)
        && (forall i :: 0 <= i < k ==> !HasAttribute(ci, init[i].0))
        && PutEach(ci, init).after.attributes == ci.attributes + ToMap(init[..k]);
      assert es[..k] == init[..k] && es[k] == init[k];
    } else {
      PutEachSucceedsIff(ci, init);
      assert forall i :: 0 <= i < |init| ==> es[i] == init[i];
      ToMapHas(init, last.0);
      assert last.0 !in ToMap(init);
      assert es[..|init|] == init;
    }
  }

  /**
   * When `putAttributes` throws, it threw at the first key, in the map's
   * enumeration order, that was already present; every entry before it
   * stays put. Which entries those are depends on that order.
   */
  lemma PutAttributesStopsAtFirstExistingKey(ci: CommonInfo, m: Entries)
    requires PutAttributes(ci, Some(m)).Abrupt?
    ensures exists k :: (0 <= k < |m|
      && HasAttribute(ci, m[k].0)
      && (forall i :: 0 <= i < k ==> !HasAttribute(ci, m[i].0))
      && PutAttributes(ci, Some(m)).after.attributes == ci.attributes + ToMap(m[..k]))
  {
    PutEachStopsAtFirstExistingKey(ci, m);
  }

  /** Skipping the per-key checks on a record without attributes gives what the strict puts would. */
  lemma UncheckedCopyAgreesWithStrictPuts(ci: CommonInfo, m: Entries)
    requires GetNumAttributes(ci) == 0
    ensures PutEach(ci, m).Normal?
    ensures PutAttributes(ci, Some(m)).after.attributes == PutEach(ci, m).after.attributes
  {
    PutEachSucceedsIff(ci, m);
  }

  /** `setAttributes(m)` cannot throw and leaves exactly the bindings of `m`. */
  lemma SetAttributesLeavesExactly(ci: CommonInfo, m: Entries)
    ensures SetAttributes(ci, Some(m)).Normal?
    ensures var a := SetAttributes(ci, Some(m)).after;
      forall i :: 0 <= i < |m| ==> GetAttribute(a, m[i].0) == m[i].1
    ensures var a := SetAttributes(ci, Some(m)).after;
      forall k :: HasAttribute(a, k) <==> exists i :: 0 <= i < |m| && m[i].0 == k
    ensures GetNumAttributes(SetAttributes(ci, Some(m)).after) == |m|
  {
    ToMapOfEntries(m);
    forall k {
      ToMapHas(m, k);
    }
  }

  // ---------------------------------------------------------------------
  // Every sequence of calls
  // ---------------------------------------------------------------------

  /** One call of a mutating method of `CommonInfo`. */
  datatype Call =
    | SetNameCall(name: Option<string>)
    | AddFilterCall(filter: Option<string>)
    | AddFiltersCall(batch: Option<seq<Option<string>>>)
    | SetLog10PErrorCall(x: Double)
    | ClearAttributesCall
    | SetAttributesCall(entries: Option<Entries>)
    | PutAttributeCall(key: string, value: Value, allowOverwrites: bool)
    | RemoveAttributeCall(key: string)
    | PutAttributesCall(entries: Option<Entries>)

  function Apply(ci: CommonInfo, c: Call): Completion {
    match c
    case SetNameCall(n) => SetName(ci, n)
    case AddFilterCall(f) => AddFilter(ci, f)
    case AddFiltersCall(fs) => AddFilters(ci, fs)
    case SetLog10PErrorCall(x) => SetLog10PError(ci, x)
    case ClearAttributesCall => Normal(ClearAttributes(ci))
    case SetAttributesCall(m) => SetAttributes(ci, m)
    case PutAttributeCall(k, v, allow) => PutAttribute(ci, k, v, allow)
    case RemoveAttributeCall(k) => Normal(RemoveAttribute(ci, k))
    case PutAttributesCall(m) => PutAttributes(ci, m)
  }

  /** The record after the calls, each made on the record the previous one left, thrown or not. */
  function Run(ci: CommonInfo, calls: seq<Call>): CommonInfo
    decreases |calls|
  {
    if calls == [] then ci
    else Apply(Run(ci, calls[..|calls| - 1]), calls[|calls| - 1]).after
  }

  /** What no call undoes: the storage invariant, evaluated filters, filter names, a set name, a stored NaN or infinity. */
  predicate Advances(before: CommonInfo, after: CommonInfo) {
    && (Valid(before) ==> Valid(after))
    && (FiltersWereApplied(before) ==> FiltersWereApplied(after))
    && GetFilters(before) <= GetFilters(after)
    && (GetName(before).Some? ==> GetName(after).Some?)
    && (!before.log10PError.Finite? ==> after.log10PError == before.log10PError)
  }

  lemma CallAdvances(ci: CommonInfo, c: Call)
    ensures Advances(ci, Apply(ci, c).after)
  {
  }

  /**
   * After any sequence of calls, thrown or not: the shared storage is still
   * empty, filters once evaluated stay evaluated and only gain names, a set
   * name stays set, and a stored NaN or infinite score is still there.
   */
  lemma {:induction false} RunAdvances(ci: CommonInfo, calls: seq<Call>)
    ensures Advances(ci, Run(ci, calls))
    decreases |calls|
  {
    if calls != [] {
      var prefix := calls[..|calls| - 1];
      RunAdvances(ci, prefix);
      CallAdvances(Run(ci, prefix), calls[|calls| - 1]);
    }
  }
}
