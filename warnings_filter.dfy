/**
 * WarningsFilter (iOS): which developer warnings the app shows, with its integer raw
 * values, its string names, the Objective-C index table and the bridge's fallback to
 * `none` for an unknown index.
 */
module WarningsFilter {
  import Wrappers
  import opened Text

  datatype Filter = All | Partial | NoWarnings

  /** The `Int` raw values 0, 1 and 2. */
  function RawValue(f: Filter): (r: int)
    ensures 0 <= r < 3
  {
    match f
    case All => 0
    case Partial => 1
    case NoWarnings => 2
  }

  /** `WarningsFilter(rawValue:)`. */
  function FromRawValue(i: int): (r: Wrappers.Option<Filter>)
    ensures r.Some? <==> 0 <= i < 3
    ensures r.Some? ==> RawValue(r.value) == i
  {
    if i == 0 then Wrappers.Some(All)
    else if i == 1 then Wrappers.Some(Partial)
    else if i == 2 then Wrappers.Some(NoWarnings)
    else Wrappers.None
  }

  lemma RawValueRoundTrip(f: Filter)
    ensures FromRawValue(RawValue(f)) == Wrappers.Some(f)
  {
  }

  /** `stringValue`, also `description` and the bridge's `toString(for:)`. */
  function StringValue(f: Filter): (r: string)
    ensures |r| > 0 && forall i :: 0 <= i < |r| ==> 'a' <= r[i] <= 'z'
  {
    match f
    case All => "all"
    case Partial => "partial"
    case NoWarnings => "none"
  }

  /** Distinct filters have distinct names. */
  lemma StringValueInjective(f: Filter, g: Filter)
    requires StringValue(f) == StringValue(g)
    ensures f == g
  {
    FromStringValue(f);
    FromStringValue(g);
  }

  /** The Objective-C table `toString`. */
  const ToStringTable: seq<string> := ["all", "partial", "none"]

  /** The table lists every filter's name at its raw value. */
  lemma TableMatchesStringValue(f: Filter)
    ensures 0 <= RawValue(f) < |ToStringTable| && ToStringTable[RawValue(f)] == StringValue(f)
  {
  }

  /** `string(for:)`: the name at an index of the table, or None outside it. */
  function StringFor(index: int): (r: Wrappers.Option<string>)
    ensures r.Some? <==> 0 <= index < 3
    ensures r.Some? ==> r.value == StringValue(FromRawValue(index).value)
  {
    if 0 <= index < |ToStringTable| then Wrappers.Some(ToStringTable[index]) else Wrappers.None
  }

  /** `lowercased()` on the letters that can spell a name: only ASCII capitals map to them. */
  function Lowered(s: string): (r: string)
    ensures |r| == |s| && forall i :: 0 <= i < |s| ==> r[i] == LowerChar(s[i])
  {
    seq(|s|, i requires 0 <= i < |s| => LowerChar(s[i]))
  }

  /** `from(string:)`: the filter whose name the string spells in any case. */
  function From(s: string): (r: Wrappers.Option<Filter>)
    ensures r.Some? ==> EqualsIgnoreCase(s, StringValue(r.value))
  {
    var l := Lowered(s);
    if l == "all" then Wrappers.Some(All)
    else if l == "partial" then Wrappers.Some(Partial)
    else if l == "none" then Wrappers.Some(NoWarnings)
    else Wrappers.None
  }

  /** Lowering matches a lower-case name exactly when the string equals it ignoring case. */
  lemma LoweredMatches(s: string, name: string)
    requires forall i :: 0 <= i < |name| ==> 'a' <= name[i] <= 'z'
    ensures Lowered(s) == name <==> EqualsIgnoreCase(s, name)
  {
    if EqualsIgnoreCase(s, name) {
      assert forall i :: 0 <= i < |name| ==> LowerChar(name[i]) == name[i];
      assert Lowered(s) == name;
    }
  }

  /** `from(string:)` finds a filter exactly when the string is its name, ignoring case. */
  lemma FromIsCaseInsensitiveInverse(s: string, f: Filter)
    ensures From(s) == Wrappers.Some(f) <==> EqualsIgnoreCase(s, StringValue(f))
  {
    LoweredMatches(s, "all");
    LoweredMatches(s, "partial");
    LoweredMatches(s, "none");
  }

  /** Names read back: `from(string: f.stringValue) == f`. */
  lemma FromStringValue(f: Filter)
    ensures From(StringValue(f)) == Wrappers.Some(f)
  {
    FromIsCaseInsensitiveInverse(StringValue(f), f);
    assert EqualsIgnoreCase(StringValue(f), StringValue(f));
  }

  /** `WarningsFilterBridge.filter(for:)`: an unknown index falls back to `none`. */
  function BridgeFilter(index: int): (r: Filter)
    ensures 0 <= index < 3 ==> RawValue(r) == index
    ensures !(0 <= index < 3) ==> r == NoWarnings
  {
    match FromRawValue(index)
    case None => NoWarnings
    case Some(f) => f
  }

  /** The bridge gives back the filter whose raw value it is given. */
  lemma BridgeFilterOfOwnIndex(f: Filter)
    ensures BridgeFilter(RawValue(f)) == f
  {
    RawValueRoundTrip(f);
  }
}
