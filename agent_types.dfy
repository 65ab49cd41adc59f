/**
 * The shared record types and small helpers of the agents: coordinates and
 * the Puerto Rico bounding box, the facility-type and region enumerations,
 * session records, the bulk-import result and the hex session token.
 */
module AgentTypes {
  import opened Wrappers

  /** A document id (`Id<"table">`); ids are handed out in creation order. */
  type Id = nat

  newtype byte = x: int | 0 <= x < 256

  datatype Coordinates = Coordinates(lat: real, lng: real)

  /** An inclusive interval `{ min, max }`. */
  datatype Range = Range(min: real, max: real)

  datatype Bounds = Bounds(lat: Range, lng: Range)

  const PUERTO_RICO_BOUNDS: Bounds := Bounds(Range(17.5, 18.6), Range(-67.5, -65.0))

  predicate InRange(x: real, r: Range) {
    r.min <= x <= r.max
  }

  /** Both coordinates lie inside `PUERTO_RICO_BOUNDS`, ends included. */
  predicate IsValidPuertoRicoCoordinates(c: Coordinates) {
    InRange(c.lat, PUERTO_RICO_BOUNDS.lat) && InRange(c.lng, PUERTO_RICO_BOUNDS.lng)
  }

  /** The accepted region is exactly the closed rectangle of the stated corners. */
  lemma BoundsInclusive(c: Coordinates)
    ensures IsValidPuertoRicoCoordinates(c)
        <==> 17.5 <= c.lat <= 18.6 && -67.5 <= c.lng <= -65.0
    ensures IsValidPuertoRicoCoordinates(Coordinates(17.5, -67.5))
    ensures IsValidPuertoRicoCoordinates(Coordinates(18.6, -65.0))
  {
  }

  const FACILITY_TYPES: seq<string> := ["warehouse", "port", "airport", "facility"]

  const REGIONS: seq<string> := ["north", "south", "east", "west", "central"]

  predicate IsValidFacilityType(t: string) {
    t in FACILITY_TYPES
  }

  predicate IsValidRegion(r: string) {
    r in REGIONS
  }

  /** Exactly four facility types and five regions are accepted. */
  lemma EnumerationsExact(t: string, r: string)
    ensures IsValidFacilityType(t)
        <==> t == "warehouse" || t == "port" || t == "airport" || t == "facility"
    ensures IsValidRegion(r)
        <==> r == "north" || r == "south" || r == "east" || r == "west" || r == "central"
    ensures |FACILITY_TYPES| == 4 && |REGIONS| == 5
    ensures forall i, j :: 0 <= i < j < |FACILITY_TYPES| ==> FACILITY_TYPES[i] != FACILITY_TYPES[j]
    ensures forall i, j :: 0 <= i < j < |REGIONS| ==> REGIONS[i] != REGIONS[j]
  {
  }

  /** `isSessionExpired(expiresAt)` with the clock reading `now` made explicit. */
  predicate IsSessionExpired(expiresAt: int, now: int) {
    now >= expiresAt
  }

  // ---------------------------------------------------------------------
  // Hex encoding of token bytes (`byte.toString(16).padStart(2, '0')`)

  const HEX_DIGITS: string := "0123456789abcdef"

  predicate IsLowerHex(s: string) {
    forall i :: 0 <= i < |s| ==> s[i] in HEX_DIGITS
  }

  /** The two zero-padded lower-case hex digits of one byte. */
  function ByteHex(b: byte): (r: string)
    ensures |r| == 2 && IsLowerHex(r)
  {
    [HEX_DIGITS[b as int / 16], HEX_DIGITS[b as int % 16]]
  }

  /** The bytes, each as two hex digits, joined without separator. */
  function HexEncode(bytes: seq<byte>): (r: string)
    ensures |r| == 2 * |bytes|
    ensures IsLowerHex(r)
  {
    if bytes == [] then "" else ByteHex(bytes[0]) + HexEncode(bytes[1..])
  }

  function DigitValue(c: char): Option<nat> {
    if '0' <= c <= '9' then Some(c as int - '0' as int)
    else if 'a' <= c <= 'f' then Some(c as int - 'a' as int + 10)
    else None
  }

  /** The inverse of `HexEncode`: `None` on odd length or a non-hex digit. */
  function HexDecode(s: string): Option<seq<byte>>
    decreases |s|
  {
    if s == [] then Some([])
    else if |s| == 1 then None
    else
      match (DigitValue(s[0]), DigitValue(s[1]), HexDecode(s[2..]))
      case (Some(hi), Some(lo), Some(rest)) =>
        if hi < 16 && lo < 16 then Some([(hi * 16 + lo) as byte] + rest) else None
      case _ => None
  }

  /** Each hex digit reads back as its position in `HEX_DIGITS`. */
  lemma NibbleDigit(n: int)
    requires 0 <= n < 16
    ensures DigitValue(HEX_DIGITS[n]) == Some(n)
  {
    assert HEX_DIGITS[n] == if n < 10 then ('0' as int + n) as char else ('a' as int + n - 10) as char;
  }

  lemma ByteHexDigits(b: byte)
    ensures DigitValue(ByteHex(b)[0]) == Some(b as int / 16)
    ensures DigitValue(ByteHex(b)[1]) == Some(b as int % 16)
  {
    NibbleDigit(b as int / 16);
    NibbleDigit(b as int % 16);
  }

  /** Decoding a token gives back its bytes, so distinct bytes give distinct tokens. */
  lemma {:induction false} HexRoundTrip(bytes: seq<byte>)
    ensures HexDecode(HexEncode(bytes)) == Some(bytes)
  {
    if bytes != [] {
      var head, tail := ByteHex(bytes[0]), HexEncode(bytes[1..]);
      var s := head + tail;
      assert s == HexEncode(bytes);
      HexRoundTrip(bytes[1..]);
      ByteHexDigits(bytes[0]);
      assert s[2..] == tail;
      HexDecodeCons(s, bytes[0], bytes[1..]);
      assert [bytes[0]] + bytes[1..] == bytes;
    }
  }

  /** Two digits of a byte followed by the digits of `rest` decode to that byte and `rest`. */
  lemma HexDecodeCons(s: string, b: byte, rest: seq<byte>)
    requires |s| >= 2
    requires DigitValue(s[0]) == Some(b as int / 16) && DigitValue(s[1]) == Some(b as int % 16)
    requires HexDecode(s[2..]) == Some(rest)
    ensures HexDecode(s) == Some([b] + rest)
  {
    assert (b as int / 16) * 16 + b as int % 16 == b as int;
  }

  /** `generateSessionToken()` over the 32 random bytes it draws. */
  function GenerateSessionToken(random: seq<byte>): (token: string)
    requires |random| == 32
    ensures |token| == 64 && IsLowerHex(token)
    ensures HexDecode(token) == Some(random)
  {
    HexRoundTrip(random);
    HexEncode(random)
  }

  // ---------------------------------------------------------------------
  // Records

  /** An `adminSessions` document; its `_id` is carried by the store. */
  datatype AdminSession = AdminSession(token: string, userId: string, expiresAt: int, createdAt: int)

  /** The token-free view of a session that `validate` hands out. */
  datatype SessionView = SessionView(id: Id, userId: string, expiresAt: int, createdAt: int)

  datatype SessionValidation =
    SessionValidation(valid: bool, session: Option<SessionView>, error: Option<string>)

  datatype ImportSuccess =
    ImportSuccess(name: string, row: Option<nat>, id: Option<Id>, status: Option<string>)

  datatype ImportFailure = ImportFailure(name: string, row: Option<nat>, error: string)

  datatype ImportSkip =
    ImportSkip(name: string, row: Option<nat>, reason: string, existingId: Option<Id>)

  /** The three lists of a bulk import. */
  datatype BulkImportResult = BulkImportResult(
    successful: seq<ImportSuccess>,
    failed: seq<ImportFailure>,
    skipped: seq<ImportSkip>)
}
