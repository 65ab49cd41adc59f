/**
 * The shared helpers of the agent tools: coordinate validation, the search
 * sanitiser, `groupBy`/`countBy`, the secure token, the admin-key check and
 * the required-fields check. The bounds, enumerations and expiry test are
 * the ones of `AgentTypes`, which this file repeats in the source.
 */
module Helpers {
  import opened Wrappers
  import opened Seqs
  import opened JsText
  import opened AgentTypes

  // ---------------------------------------------------------------------
  // Coordinates

  datatype CoordinateError = OutsideBounds(fieldName: string, coordinates: Coordinates, bounds: Bounds)

  /** `validateCoordinates`: throws exactly when the point is out of bounds. */
  function ValidateCoordinates(c: Coordinates, fieldName: string := "Coordinates"): (r: Outcome<CoordinateError>)
    ensures r.Pass? <==> 17.5 <= c.lat <= 18.6 && -67.5 <= c.lng <= -65.0
    ensures r.Fail? ==> r.error == OutsideBounds(fieldName, c, PUERTO_RICO_BOUNDS)
  {
    if !IsValidPuertoRicoCoordinates(c) then Fail(OutsideBounds(fieldName, c, PUERTO_RICO_BOUNDS)) else Pass
  }

  // ---------------------------------------------------------------------
  // Search sanitiser

  const MAX_SEARCH_LENGTH: nat := 200

  /** The letters `áéíóúñÁÉÍÓÚÑüÜ` that the sanitiser keeps besides ASCII. */
  const ACCENTED: string :=
    "\U{00E1}\U{00E9}\U{00ED}\U{00F3}\U{00FA}\U{00F1}\U{00C1}\U{00C9}\U{00CD}\U{00D3}\U{00DA}\U{00D1}\U{00FC}\U{00DC}"

  /** JavaScript's `\w` without the `u` flag. */
  predicate IsWordChar(c: char) {
    ('a' <= c <= 'z') || ('A' <= c <= 'Z') || ('0' <= c <= '9') || c == '_'
  }

  /** The class `[\w\s\-.,áéíóúñÁÉÍÓÚÑüÜ]`. */
  predicate IsAllowedSearchChar(c: char) {
    IsWordChar(c) || IsJsSpace(c) || c == '-' || c == '.' || c == ',' || c in ACCENTED
  }

  /**
   * `s.substring(0, n)` where `n` counts UTF-16 code units: the longest
   * prefix of whole characters that fits. A surrogate pair cut in half leaves
   * a lone surrogate, which the sanitiser's character filter then removes.
   */
  function TakeCodeUnits(s: string, n: nat): (r: string)
    ensures |r| <= |s| && r == s[..|r|]
    ensures |r| <= |CodeUnits(r)| <= n
    ensures |CodeUnits(s)| <= n ==> r == s
  {
    if s == [] then []
    else
      var k := |CharUnits(s[0])|;
      if k <= n then
        var rest := TakeCodeUnits(s[1..], n - k);
        assert ([s[0]] + rest)[1..] == rest;
        [s[0]] + rest
      else []
  }

  /** `sanitizeSearchInput`: trim, cut to 200 code units, drop disallowed characters. */
  function SanitizeSearchInput(input: string): (r: string)
    ensures |r| <= MAX_SEARCH_LENGTH
    ensures forall i :: 0 <= i < |r| ==> IsAllowedSearchChar(r[i])
    ensures forall i :: 0 <= i < |r| ==> r[i] in Trim(input)
  {
    var trimmed := Trim(input);
    var cut := TakeCodeUnits(trimmed, MAX_SEARCH_LENGTH);
    var r := Filter(cut, IsAllowedSearchChar);
    assert forall i :: 0 <= i < |r| ==> r[i] in trimmed by {
      forall i | 0 <= i < |r| ensures r[i] in trimmed {
        FilterMember(cut, IsAllowedSearchChar, r[i]);
        var j :| 0 <= j < |cut| && cut[j] == r[i];
        assert trimmed[j] == cut[j];
      }
    }
    r
  }

  /** A trimmed input that is short and has only allowed characters is kept as is. */
  lemma SanitizeKeepsCleanInput(input: string)
    requires Trim(input) == input
    requires |CodeUnits(input)| <= MAX_SEARCH_LENGTH
    requires forall i :: 0 <= i < |input| ==> IsAllowedSearchChar(input[i])
    ensures SanitizeSearchInput(input) == input
  {
    FilterAll(input, IsAllowedSearchChar);
  }

  /** Every allowed character within the first 200 code units survives. */
  lemma SanitizeKeepsAllowed(input: string, i: nat)
    requires i < |TakeCodeUnits(Trim(input), MAX_SEARCH_LENGTH)|
    requires IsAllowedSearchChar(Trim(input)[i])
    ensures Trim(input)[i] in SanitizeSearchInput(input)
  {
    var cut := TakeCodeUnits(Trim(input), MAX_SEARCH_LENGTH);
    assert cut[i] == Trim(input)[i];
    FilterMember(cut, IsAllowedSearchChar, cut[i]);
  }

  // ---------------------------------------------------------------------
  // groupBy / countBy

  /** The keys that occur among the items. */
  function Image<T>(items: seq<T>, key: T -> string): set<string> {
    set i | 0 <= i < |items| :: key(items[i])
  }

  /** `m` with the count of `k` incremented. */
  function Bump(m: map<string, nat>, k: string): map<string, nat> {
    m[k := (if k in m then m[k] else 0) + 1]
  }

  /** The counts of the keys, accumulated item by item as `reduce` does. */
  function Tally<T>(items: seq<T>, key: T -> string): map<string, nat>
    decreases |items|
  {
    if items == [] then map[]
    else Bump(Tally(items[..|items| - 1], key), key(items[|items| - 1]))
  }

  lemma ImageSnoc<T>(items: seq<T>, x: T, key: T -> string)
    ensures Image(items + [x], key) == Image(items, key) + {key(x)}
  {
    var s := items + [x];
    forall k | k in Image(s, key) ensures k in Image(items, key) + {key(x)} {
      var i :| 0 <= i < |s| && key(s[i]) == k;
      if i < |items| { assert s[i] == items[i]; }
    }
    forall k | k in Image(items, key) ensures k in Image(s, key) {
      var i :| 0 <= i < |items| && key(items[i]) == k;
      assert s[i] == items[i];
    }
    assert s[|items|] == x;
  }

  /** No item has a key outside the image. */
  lemma FilterKeyAbsent<T>(items: seq<T>, key: T -> string, k: string)
    requires k !in Image(items, key)
    ensures Filter(items, KeyIs(key, k)) == []
  {
    var f := Filter(items, KeyIs(key, k));
    if f != [] {
      FilterMember(items, KeyIs(key, k), f[0]);
    }
  }

  /** The tally has exactly the occurring keys, each with its number of items. */
  lemma {:induction false} TallyMeaning<T>(items: seq<T>, key: T -> string, k: string)
    ensures k in Tally(items, key) <==> k in Image(items, key)
    ensures k in Tally(items, key) ==> Tally(items, key)[k] == Count(items, KeyIs(key, k))
    decreases |items|
  {
    if items != [] {
      var init, x := items[..|items| - 1], items[|items| - 1];
      assert items == init + [x];
      TallyMeaning(init, key, k);
      ImageSnoc(init, x, key);
      FilterSnoc(init, x, KeyIs(key, k));
      if k !in Image(init, key) {
        FilterKeyAbsent(init, key, k);
      }
    }
  }

  /** The sum of the values of a map. */
  ghost function Sum(m: map<string, nat>): nat
    decreases |m|
  {
    if m == map[] then 0
    else
      var k :| k in m;
      m[k] + Sum(m - {k})
  }

  lemma {:induction false} SumRemove(m: map<string, nat>, k: string)
    requires k in m
    ensures Sum(m) == m[k] + Sum(m - {k})
    decreases |m|
  {
    var j :| j in m && Sum(m) == m[j] + Sum(m - {j});
    if j != k {
      assert |(m - {j}).Keys| == |m.Keys| - 1;
      SumRemove(m - {j}, k);
      SumRemove(m - {k}, j);
      assert m - {j} - {k} == m - {k} - {j};
    }
  }

  lemma SumBump(m: map<string, nat>, k: string)
    ensures Sum(Bump(m, k)) == Sum(m) + 1
  {
    var b := Bump(m, k);
    SumRemove(b, k);
    assert b - {k} == m - {k};
    if k in m {
      SumRemove(m, k);
    } else {
      assert m - {k} == m;
    }
  }

  /** The counts of a tally add up to the number of items. */
  lemma {:induction false} TallyTotal<T>(items: seq<T>, key: T -> string)
    ensures Sum(Tally(items, key)) == |items|
    decreases |items|
  {
    if items == [] {
      assert Tally(items, key) == map[];
    } else {
      var init, x := items[..|items| - 1], items[|items| - 1];
      assert items == init + [x];
      TallyTotal(init, key);
      SumBump(Tally(init, key), key(x));
    }
  }

  /**
   * `groupBy(items, key)`: every occurring key maps to the items with that
   * key, in input order; `key` stands for `String(item[key])`.
   */
  method GroupBy<T>(items: seq<T>, key: T -> string) returns (groups: map<string, seq<T>>)
    ensures forall k :: k in groups <==> k in Image(items, key)
    ensures forall k | k in groups :: groups[k] == Filter(items, KeyIs(key, k))
  {
    groups := map[];
    var i := 0;
    while i < |items|
      invariant 0 <= i <= |items|
      invariant forall k :: k in groups <==> k in Image(items[..i], key)
      invariant forall k | k in groups :: groups[k] == Filter(items[..i], KeyIs(key, k))
    {
      var x := items[i];
      var k := key(x);
      var group := if k in groups then groups[k] else [];
      groups := groups[k := group + [x]];
      assert items[..i + 1] == items[..i] + [x];
      ImageSnoc(items[..i], x, key);
      forall k' | k' in groups
        ensures groups[k'] == Filter(items[..i + 1], KeyIs(key, k'))
      {
        FilterSnoc(items[..i], x, KeyIs(key, k'));
        if k' == k && k !in Image(items[..i], key) {
          FilterKeyAbsent(items[..i], key, k);
        }
      }
      i := i + 1;
    }
    assert items[..|items|] == items;
  }

  lemma MapExt(a: map<string, nat>, b: map<string, nat>)
    requires forall k :: (k in a <==> k in b) && (k in a ==> a[k] == b[k])
    ensures a == b
  {
  }

  /** Every item lands in exactly one group: the group sizes add up to the item count. */
  lemma GroupSizesTotal<T>(items: seq<T>, key: T -> string, groups: map<string, seq<T>>)
    requires forall k :: k in groups <==> k in Image(items, key)
    requires forall k | k in groups :: groups[k] == Filter(items, KeyIs(key, k))
    ensures Sum(map k | k in groups :: |groups[k]|) == |items|
  {
    var sizes := map k | k in groups :: |groups[k]|;
    forall k ensures (k in sizes <==> k in Tally(items, key)) && (k in sizes ==> sizes[k] == Tally(items, key)[k]) {
      TallyMeaning(items, key, k);
    }
    MapExt(sizes, Tally(items, key));
    TallyTotal(items, key);
  }

  /** `String(item[key] || 'unknown')` for a string-valued field. */
  function CountKey(v: string): string {
    if v == "" then "unknown" else v
  }

  function CountKeyOf<T>(key: T -> string): T -> string {
    x => CountKey(key(x))
  }

  /** `countBy`'s result as a function of the items. */
  function Counts<T>(items: seq<T>, key: T -> string): map<string, nat> {
    Tally(items, CountKeyOf(key))
  }

  /** Counts add up to the item count, and items with an empty key are counted under 'unknown'. */
  lemma CountsTotal<T>(items: seq<T>, key: T -> string)
    ensures Sum(Counts(items, key)) == |items|
    ensures "" !in Counts(items, key)
    ensures forall i :: 0 <= i < |items| && key(items[i]) == "" ==> "unknown" in Counts(items, key)
  {
    TallyTotal(items, CountKeyOf(key));
    TallyMeaning(items, CountKeyOf(key), "");
    TallyMeaning(items, CountKeyOf(key), "unknown");
    forall i | 0 <= i < |items| && key(items[i]) == ""
      ensures "unknown" in Image(items, CountKeyOf(key))
    {
      assert CountKeyOf(key)(items[i]) == "unknown";
    }
  }

  /** When no item has a key, `countBy` files them all under 'unknown'. */
  lemma CountsNoKey<T>(items: seq<T>, key: T -> string)
    requires forall i :: 0 <= i < |items| ==> key(items[i]) == ""
    ensures forall k :: k in Counts(items, key) ==> k == "unknown"
  {
    forall k | k in Counts(items, key) ensures k == "unknown" {
      TallyMeaning(items, CountKeyOf(key), k);
    }
  }

  /** `countBy(items, key)`, accumulating one item at a time. */
  method CountBy<T>(items: seq<T>, key: T -> string) returns (counts: map<string, nat>)
    ensures counts == Counts(items, key)
  {
    counts := map[];
    var i := 0;
    while i < |items|
      invariant 0 <= i <= |items|
      invariant counts == Counts(items[..i], key)
    {
      var k := CountKey(key(items[i]));
      counts := counts[k := (if k in counts then counts[k] else 0) + 1];
      assert items[..i + 1][..i] == items[..i];
      i := i + 1;
    }
    assert items[..|items|] == items;
  }

  // ---------------------------------------------------------------------
  // Token, expiry, admin key, required fields

  /** `generateSecureToken(length)` over the `length` random bytes it draws. */
  function GenerateSecureToken(random: seq<byte>): (token: string)
    ensures |token| == 2 * |random| && IsLowerHex(token)
    ensures HexDecode(token) == Some(random)
  {
    HexRoundTrip(random);
    HexEncode(random)
  }

  datatype AdminKeyError = NotConfigured | Unauthorized

  /**
   * `validateAdminKey(providedKey)` against the configured secret
   * (`None` when the environment variable is unset).
   */
  function CheckAdminKey(providedKey: string, secret: Option<string>): (r: Outcome<AdminKeyError>)
    ensures r == Fail(NotConfigured) <==> !Truthy(secret)
    ensures r == Fail(Unauthorized) <==> Truthy(secret) && providedKey != secret.value
    ensures r == Pass <==> Truthy(secret) && providedKey == secret.value
    ensures r == Pass ==> providedKey != ""
  {
    if !Truthy(secret) then Fail(NotConfigured)
    else if providedKey != secret.value then Fail(Unauthorized)
    else Pass
  }

  /** A field counts as missing when it is undefined, null or the empty string. */
  predicate IsMissing(obj: map<string, JsValue>, field: string) {
    field !in obj || obj[field] == Undefined || obj[field] == Null || obj[field] == Str("")
  }

  /** `validateRequiredFields`: fails with the missing fields, in the order required. */
  function ValidateRequiredFields(obj: map<string, JsValue>, required: seq<string>): (r: Outcome<seq<string>>)
    ensures r.Pass? <==> forall i :: 0 <= i < |required| ==> !IsMissing(obj, required[i])
    ensures r.Fail? ==> |r.error| > 0
    ensures r.Fail? ==> forall i :: 0 <= i < |r.error| ==> r.error[i] in required && IsMissing(obj, r.error[i])
    ensures r.Fail? ==> forall i :: 0 <= i < |required| && IsMissing(obj, required[i]) ==> required[i] in r.error
  {
    var missing := Filter(required, f => IsMissing(obj, f));
    assert forall i :: 0 <= i < |missing| ==> missing[i] in required && IsMissing(obj, missing[i]) by {
      forall i | 0 <= i < |missing| ensures missing[i] in required {
        FilterMember(required, f => IsMissing(obj, f), missing[i]);
      }
    }
    assert forall i :: 0 <= i < |required| && IsMissing(obj, required[i]) ==> required[i] in missing by {
      forall i | 0 <= i < |required| && IsMissing(obj, required[i]) ensures required[i] in missing {
        FilterMember(required, f => IsMissing(obj, f), required[i]);
      }
    }
    assert |missing| > 0 ==> exists i :: 0 <= i < |required| && IsMissing(obj, required[i]) by {
      if |missing| > 0 {
        var i :| 0 <= i < |required| && required[i] == missing[0];
        assert IsMissing(obj, required[i]);
      }
    }
    if |missing| > 0 then Fail(missing) else Pass
  }
}
