/**
 * MendixBackwardsCompatUtility: which client features a Mendix runtime version lacks.
 * Both platforms look the version up by its first three, then two, then one
 * dot-separated components. iOS carries a table for the 8.x versions and falls back to
 * its DEFAULT entry; Android's table is empty, so every version supports everything.
 */
module Compat {
  import opened Wrappers
  import opened Text

  datatype UnsupportedFeatures = UnsupportedFeatures(reloadInClient: bool, hideSplashScreenInClient: bool)

  /** Kotlin's `UnsupportedFeatures()`: both flags false. */
  const NoneUnsupported: UnsupportedFeatures := UnsupportedFeatures(false, false)

  const DefaultKey: string := "DEFAULT"

  /** iOS's `versionDictionary`. */
  const IosVersionDictionary: map<string, UnsupportedFeatures> := map[
    "8.9" := UnsupportedFeatures(true, true),
    "8.10" := UnsupportedFeatures(false, true),
    "8.11" := UnsupportedFeatures(false, true),
    "8.12.0" := UnsupportedFeatures(false, true),
    DefaultKey := UnsupportedFeatures(false, false)
  ]

  /** Android's `versionMap`. */
  const AndroidVersionMap: map<string, UnsupportedFeatures> := map[]

  function Min(a: int, b: int): int {
    if a <= b then a else b
  }

  /**
   * iOS's `update(forVersion)` lookup: the first three components, if there are three,
   * then the first two, if there are two, then the first, and else the table's DEFAULT
   * entry (which a table may lack, hence the option). What it finds is always an entry.
   */
  function IosFeaturesFor(dict: map<string, UnsupportedFeatures>, version: string): (r: Option<UnsupportedFeatures>)
    ensures r.Some? ==> r.value in dict.Values
    ensures DefaultKey in dict ==> r.Some?
  {
    var parts := Split(version, ".");
    if |parts| >= 3 && Join(parts[..3], ".") in dict then Some(dict[Join(parts[..3], ".")])
    else if |parts| >= 2 && Join(parts[..2], ".") in dict then Some(dict[Join(parts[..2], ".")])
    else if parts[0] in dict then Some(dict[parts[0]])
    else if DefaultKey in dict then Some(dict[DefaultKey])
    else None
  }

  /**
   * Android's `update(forVersion)` lookup: `take` at most three, then at most two
   * components, then the first, and else `UnsupportedFeatures()`.
   */
  function AndroidFeaturesFor(versionMap: map<string, UnsupportedFeatures>, version: string): (r: UnsupportedFeatures)
    ensures r in versionMap.Values || r == NoneUnsupported
  {
    var parts := Split(version, ".");
    var three, two := Join(parts[..Min(|parts|, 3)], "."), Join(parts[..Min(|parts|, 2)], ".");
    if three in versionMap then versionMap[three]
    else if two in versionMap then versionMap[two]
    else if parts[0] in versionMap then versionMap[parts[0]]
    else NoneUnsupported
  }

  /**
   * The two lookups try the same keys in the same order (Android's `take` of fewer
   * components than asked repeats a key iOS skips): with the same table, and a DEFAULT
   * entry equal to Android's fallback, they find the same features.
   */
  lemma LookupsAgree(table: map<string, UnsupportedFeatures>, version: string)
    requires DefaultKey in table && table[DefaultKey] == NoneUnsupported
    ensures IosFeaturesFor(table, version) == Some(AndroidFeaturesFor(table, version))
  {
    var parts := Split(version, ".");
    if |parts| == 1 {
      assert parts[..1] == [parts[0]];
    } else if |parts| == 2 {
      assert parts[..2][..1] == [parts[0]];
    }
  }

  /** Android's empty table: every version gets both flags false. */
  lemma AndroidSupportsEverything(version: string)
    ensures AndroidFeaturesFor(AndroidVersionMap, version) == NoneUnsupported
  {
  }

  /** A version of three components, none holding a dot: the keys the lookups try. */
  lemma ThreeComponents(a: string, b: string, c: string)
    requires '.' !in a && '.' !in b && '.' !in c
    ensures var parts := Split(a + "." + b + "." + c, ".");
      |parts| == 3 && Join(parts[..3], ".") == a + "." + b + "." + c && Join(parts[..2], ".") == a + "." + b && parts[0] == a
  {
    var parts := [a, b, c];
    assert Join([c], ".") == c;
    assert Join([b, c], ".") == b + "." + c by { assert [b, c][1..] == [c]; }
    assert Join(parts, ".") == a + "." + (b + "." + c) by { assert parts[1..] == [b, c]; }
    assert a + "." + (b + "." + c) == a + "." + b + "." + c;
    SplitJoin(parts, ".");
    assert parts[..3] == parts;
    assert Join(parts[..2], ".") == a + "." + b by {
      assert parts[..2] == [a, b] && [a, b][1..] == [b];
    }
  }

  /** The iOS lookup of a three-component version: its three keys in turn, then DEFAULT. */
  lemma IosFeaturesOfThree(dict: map<string, UnsupportedFeatures>, a: string, b: string, c: string)
    requires '.' !in a && '.' !in b && '.' !in c
    ensures var v := a + "." + b + "." + c; var ab := a + "." + b;
      IosFeaturesFor(dict, v) ==
        if v in dict then Some(dict[v])
        else if ab in dict then Some(dict[ab])
        else if a in dict then Some(dict[a])
        else if DefaultKey in dict then Some(dict[DefaultKey])
        else None
  {
    ThreeComponents(a, b, c);
  }

  /** "8.10.3" misses the three-component key and takes the "8.10" entry. */
  lemma PatchOf810TakesMinorEntry()
    ensures IosFeaturesFor(IosVersionDictionary, "8.10.3") == Some(UnsupportedFeatures(false, true))
  {
    IosFeaturesOfThree(IosVersionDictionary, "8", "10", "3");
    assert "8" + "." + "10" + "." + "3" == "8.10.3";
    assert "8" + "." + "10" == "8.10";
  }

  /** "8.12.0" has its own entry. */
  lemma Version8120IsListed()
    ensures IosFeaturesFor(IosVersionDictionary, "8.12.0") == Some(UnsupportedFeatures(false, true))
  {
    IosFeaturesOfThree(IosVersionDictionary, "8", "12", "0");
    assert "8" + "." + "12" + "." + "0" == "8.12.0";
  }

  /** "8.12.1" finds neither "8.12.1", "8.12" nor "8", and gets DEFAULT: everything supported. */
  lemma Version8121FallsToDefault()
    ensures IosFeaturesFor(IosVersionDictionary, "8.12.1") == Some(NoneUnsupported)
  {
    IosFeaturesOfThree(IosVersionDictionary, "8", "12", "1");
    assert "8" + "." + "12" + "." + "1" == "8.12.1";
    assert "8" + "." + "12" == "8.12";
  }

  /** The iOS utility's static state: the features of the version last given to `update`. */
  class IosCompat {
    var unsupported: Option<UnsupportedFeatures>

    /** Always one of the table's entries. */
    predicate Valid()
      reads this
    {
      unsupported.Some? && unsupported.value in IosVersionDictionary.Values
    }

    /** The initial value is the DEFAULT entry. */
    constructor ()
      ensures unsupported == Some(NoneUnsupported) && Valid()
    {
      unsupported := Some(IosVersionDictionary[DefaultKey]);
    }

    /** `unsupportedFeatures()`. */
    function UnsupportedFeaturesNow(): (r: Option<UnsupportedFeatures>)
      reads this
      ensures Valid() ==> r.Some? && r.value in IosVersionDictionary.Values
    {
      unsupported
    }

    /** `update(forVersion)`. */
    method Update(forVersion: string)
      modifies this
      ensures unsupported == IosFeaturesFor(IosVersionDictionary, forVersion)
      ensures Valid()
    {
      var parts := Split(forVersion, ".");
      if |parts| >= 3 {
        var key := Join(parts[..3], ".");
        if key in IosVersionDictionary {
          unsupported := Some(IosVersionDictionary[key]);
          return;
        }
      }
      if |parts| >= 2 {
        var key := Join(parts[..2], ".");
        if key in IosVersionDictionary {
          unsupported := Some(IosVersionDictionary[key]);
          return;
        }
      }
      if parts[0] in IosVersionDictionary {
        unsupported := Some(IosVersionDictionary[parts[0]]);
        return;
      }
      unsupported := Some(IosVersionDictionary[DefaultKey]);
    }

    /** `isHideSplashScreenInClientSupported()`: the negated flag, and true when nothing is stored. */
    function IsHideSplashScreenInClientSupported(): (r: bool)
      reads this
      ensures unsupported.None? ==> r
      ensures unsupported.Some? ==> r == !unsupported.value.hideSplashScreenInClient
    {
      match unsupported
      case None => true
      case Some(f) => !f.hideSplashScreenInClient
    }
  }

  /** The Android utility instance. */
  class AndroidCompat {
    const versionMap: map<string, UnsupportedFeatures> := AndroidVersionMap
    var unsupportedFeatures: UnsupportedFeatures

    constructor ()
      ensures unsupportedFeatures == NoneUnsupported
    {
      unsupportedFeatures := UnsupportedFeatures(false, false);
    }

    /** `update(forVersion)`: never anything but both flags false, since the table is empty. */
    method Update(forVersion: string)
      modifies this
      ensures unsupportedFeatures == AndroidFeaturesFor(versionMap, forVersion)
      ensures unsupportedFeatures == NoneUnsupported
    {
      unsupportedFeatures := AndroidFeaturesFor(versionMap, forVersion);
    }
  }

  /** The companion object: `INSTANCE`, created on first use and kept. */
  class AndroidCompatHolder {
    var instance: Option<AndroidCompat>

    constructor ()
      ensures instance.None?
    {
      instance := None;
    }

    /** `getInstance()`: the existing instance, or a new one, which is kept. */
    method GetInstance() returns (r: AndroidCompat)
      modifies this
      ensures instance == Some(r)
      ensures old(instance).Some? ==> r == old(instance).value
      ensures old(instance).None? ==> fresh(r) && r.unsupportedFeatures == NoneUnsupported
    {
      if instance.Some? {
        return instance.value;
      }
      r := new AndroidCompat();
      instance := Some(r);
    }

    /** A second `getInstance()` returns the object the first one did. */
    method GetInstanceTwice() returns (a: AndroidCompat, b: AndroidCompat)
      modifies this
      ensures a == b
    {
      a := GetInstance();
      b := GetInstance();
    }

    /** The static `update(forVersion)`: updates the (possibly new) instance. */
    method UpdateVersion(forVersion: string)
      modifies this, if instance.Some? then {instance.value} else {}
      ensures instance.Some? && instance.value.unsupportedFeatures == NoneUnsupported
      ensures old(instance).Some? ==> instance == old(instance)
    {
      var it := GetInstance();
      it.Update(forVersion);
    }
  }
}
