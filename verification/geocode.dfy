/** mockGeocode: the keyword address resolver. The address is lower-cased, the keyword
    table is walked in Object.entries order, and the coordinates of the first key that
    occurs in the address are returned; without such a key the city centre is. */
module Geocode {
  import opened Wrappers
  import opened Text
  import opened RestaurantTypes

  /** One entry of locationMap: a keyword and its coordinates. */
  datatype Place = Place(key: string, coord: Coord)

  /** DEFAULT_COORDINATES: the centre of Houston. */
  const DefaultCoordinates: Coord := Coord(29.7604, -95.3698)

  /** Entry i of locationMap in the order Object.entries walks it. OrdinaryOwnPropertyKeys
      lists the keys that are array indices (here the ZIP codes) first, in ascending
      numeric order, and then the other string keys in the order they were created (here
      the order they are written, houston to westheimer). */
  function Entry(i: nat): (p: Place)
    requires i < 24
  {
    if i == 0 then Place("77002", Coord(29.7589, -95.3677))
    else if i == 1 then Place("77006", Coord(29.7425, -95.3960))
    else if i == 2 then Place("77019", Coord(29.7504, -95.4022))
    else if i == 3 then Place("77027", Coord(29.7476, -95.4376))
    else if i == 4 then Place("77036", Coord(29.7018, -95.5418))
    else if i == 5 then Place("77057", Coord(29.7342, -95.4623))
    else if i == 6 then Place("77063", Coord(29.7342, -95.5212))
    else if i == 7 then Place("77074", Coord(29.6785, -95.5090))
    else if i == 8 then Place("77081", Coord(29.6912, -95.5034))
    else if i == 9 then Place("77098", Coord(29.7345, -95.4177))
    else if i == 10 then Place("77099", Coord(29.6589, -95.5812))
    else if i == 11 then Place("houston", Coord(29.7604, -95.3698))
    else if i == 12 then Place("downtown", Coord(29.7604, -95.3698))
    else if i == 13 then Place("downtown houston", Coord(29.7604, -95.3698))
    else if i == 14 then Place("galleria", Coord(29.7384, -95.4624))
    else if i == 15 then Place("memorial", Coord(29.7752, -95.5591))
    else if i == 16 then Place("heights", Coord(29.8027, -95.4108))
    else if i == 17 then Place("montrose", Coord(29.7425, -95.3960))
    else if i == 18 then Place("midtown", Coord(29.7424, -95.3687))
    else if i == 19 then Place("rice village", Coord(29.7173, -95.4200))
    else if i == 20 then Place("medical center", Coord(29.7072, -95.4020))
    else if i == 21 then Place("energy corridor", Coord(29.7752, -95.6391))
    else if i == 22 then Place("hillcroft", Coord(29.7123, -95.4954))
    else Place("westheimer", Coord(29.7370, -95.5195))
  }

  /** locationMap as the ordered sequence the lookup walks. */
  function LocationTable(): (t: seq<Place>)
    ensures |t| == 24 && forall i :: 0 <= i < 24 ==> t[i] == Entry(i)
    ensures EntriesOrder(t, ZipCount)
  {
    var t := seq(24, i requires 0 <= i < 24 => Entry(i));
    EnumerationOrder(t);
    t
  }

  /** How many of the keys are ZIP codes. */
  const ZipCount: nat := 11

  /** A key that names an array index: a canonical decimal numeral below 2^32 - 1. */
  predicate IsArrayIndex(k: string) {
    1 <= |k| && AllDigits(k) && (k[0] != '0' || |k| == 1) && DecimalValue(k) < 0xFFFF_FFFF
  }

  /** The decimal value of a five-digit numeral, digit by digit. */
  lemma FiveDigitValue(s: string)
    requires |s| == 5 && AllDigits(s)
    ensures DecimalValue(s) == 10000 * DigitValue(s[0]) + 1000 * DigitValue(s[1])
      + 100 * DigitValue(s[2]) + 10 * DigitValue(s[3]) + DigitValue(s[4])
  {
    var d := DecimalValue(s[..1]);
    assert d == DigitValue(s[0]) by {
      assert s[..1][..0] == [];
      assert DecimalValue(s[..1][..0]) == 0;
    }
    assert s[..2][..1] == s[..1];
    var e := DecimalValue(s[..2]);
    assert e == 10 * d + DigitValue(s[1]);
    assert s[..3][..2] == s[..2];
    var f := DecimalValue(s[..3]);
    assert f == 10 * e + DigitValue(s[2]);
    assert s[..4][..3] == s[..3];
    var g := DecimalValue(s[..4]);
    assert g == 10 * f + DigitValue(s[3]);
    assert s[..4] == s[..|s| - 1];
  }

  /** A ZIP key: five digits starting with 7, and so an array index. */
  lemma ZipKey(k: string, value: nat)
    requires |k| == 5 && AllDigits(k) && k[0] == '7'
    requires value == 10000 * DigitValue(k[0]) + 1000 * DigitValue(k[1])
      + 100 * DigitValue(k[2]) + 10 * DigitValue(k[3]) + DigitValue(k[4])
    ensures IsArrayIndex(k) && DecimalValue(k) == value
  {
    FiveDigitValue(k);
  }

  /** The first eleven keys are five-digit ZIP codes starting with 7, with the values
      ZipValues lists. */
  lemma ZipEntry(i: nat)
    requires i < ZipCount
    ensures |Entry(i).key| == 5 && Entry(i).key[0] == '7' && IsArrayIndex(Entry(i).key)
    ensures DecimalValue(Entry(i).key) == ZipValues[i]
  {
    if i < 6 {
      ZipEntryLow(i);
    } else {
      ZipEntryHigh(i);
    }
  }

  lemma ZipEntryLow(i: nat)
    requires i < 6
    ensures |Entry(i).key| == 5 && Entry(i).key[0] == '7' && IsArrayIndex(Entry(i).key)
    ensures DecimalValue(Entry(i).key) == ZipValues[i]
  {
    if i == 0 {
      ZipKey(Entry(0).key, ZipValues[0]);
    } else if i == 1 {
      ZipKey(Entry(1).key, ZipValues[1]);
    } else if i == 2 {
      ZipKey(Entry(2).key, ZipValues[2]);
    } else if i == 3 {
      ZipKey(Entry(3).key, ZipValues[3]);
    } else if i == 4 {
      ZipKey(Entry(4).key, ZipValues[4]);
    } else {
      ZipKey(Entry(5).key, ZipValues[5]);
    }
  }

  lemma ZipEntryHigh(i: nat)
    requires 6 <= i < ZipCount
    ensures |Entry(i).key| == 5 && Entry(i).key[0] == '7' && IsArrayIndex(Entry(i).key)
    ensures DecimalValue(Entry(i).key) == ZipValues[i]
  {
    if i == 6 {
      ZipKey(Entry(6).key, ZipValues[6]);
    } else if i == 7 {
      ZipKey(Entry(7).key, ZipValues[7]);
    } else if i == 8 {
      ZipKey(Entry(8).key, ZipValues[8]);
    } else if i == 9 {
      ZipKey(Entry(9).key, ZipValues[9]);
    } else {
      ZipKey(Entry(10).key, ZipValues[10]);
    }
  }

  /** The other keys start with a letter. */
  lemma AreaEntry(i: nat)
    requires ZipCount <= i < 24
    ensures 0 < |Entry(i).key| && 'a' <= Entry(i).key[0] <= 'z'
  {
    if i == 11 {
      assert 'a' <= Entry(11).key[0] <= 'z';
    } else if i == 12 {
      assert 'a' <= Entry(12).key[0] <= 'z';
    } else if i == 13 {
      assert 'a' <= Entry(13).key[0] <= 'z';
    } else if i == 14 {
      assert 'a' <= Entry(14).key[0] <= 'z';
    } else if i == 15 {
      assert 'a' <= Entry(15).key[0] <= 'z';
    } else if i == 16 {
      assert 'a' <= Entry(16).key[0] <= 'z';
    } else if i == 17 {
      assert 'a' <= Entry(17).key[0] <= 'z';
    } else if i == 18 {
      assert 'a' <= Entry(18).key[0] <= 'z';
    } else if i == 19 {
      assert 'a' <= Entry(19).key[0] <= 'z';
    } else if i == 20 {
      assert 'a' <= Entry(20).key[0] <= 'z';
    } else if i == 21 {
      assert 'a' <= Entry(21).key[0] <= 'z';
    } else if i == 22 {
      assert 'a' <= Entry(22).key[0] <= 'z';
    } else {
      assert 'a' <= Entry(23).key[0] <= 'z';
    }
  }

  /** The ZIP codes as numbers, in walk order. */
  const ZipValues: seq<nat> := [77002, 77006, 77019, 77027, 77036, 77057, 77063, 77074, 77081, 77098, 77099]

  /** The order OrdinaryOwnPropertyKeys gives a table whose first n keys are the array
      indices: those n in strictly ascending numeric order, and no array index after them. */
  ghost predicate EntriesOrder(t: seq<Place>, n: nat) {
    && n <= |t|
    && (forall i :: 0 <= i < n ==> IsArrayIndex(t[i].key))
    && (forall i, j :: 0 <= i < j < n && j == i + 1 ==>
          IsArrayIndex(t[i].key) && IsArrayIndex(t[j].key)
          && DecimalValue(t[i].key) < DecimalValue(t[j].key))
    && (forall i :: n <= i < |t| ==> !IsArrayIndex(t[i].key))
  }

  /** The table of Entry follows the Object.entries rule, with the ZIP codes as its array
      indices. */
  lemma EnumerationOrder(t: seq<Place>)
    requires |t| == 24 && forall i :: 0 <= i < 24 ==> t[i] == Entry(i)
    ensures EntriesOrder(t, ZipCount)
  {
    forall i | 0 <= i < ZipCount
      ensures IsArrayIndex(t[i].key)
    {
      ZipEntry(i);
    }
    forall i, j | 0 <= i < j < ZipCount && j == i + 1
      ensures DecimalValue(t[i].key) < DecimalValue(t[j].key)
    {
      ZipEntry(i);
      ZipEntry(i + 1);
    }
    forall i | ZipCount <= i < |t|
      ensures !IsArrayIndex(t[i].key)
    {
      AreaEntry(i);
    }
  }

  /** In that order the numeric value of the array-index keys rises along the whole run,
      not only from one key to the next. */
  lemma {:induction false} EntriesOrderAscending(t: seq<Place>, n: nat, y: nat, z: nat)
    requires EntriesOrder(t, n) && y < z < n
    ensures DecimalValue(t[y].key) < DecimalValue(t[z].key)
    decreases z - y
  {
    assert IsArrayIndex(t[y].key) && IsArrayIndex(t[y + 1].key);
    if y + 1 < z {
      EntriesOrderAscending(t, n, y + 1, z);
    }
  }

  /** Index of the first entry, from i on, whose key occurs in text. */
  function FirstKeyFrom(table: seq<Place>, text: string, i: nat): (r: Option<nat>)
    requires i <= |table|
    ensures r.Some? ==> i <= r.value < |table| && Contains(text, table[r.value].key)
    ensures r.Some? ==> forall j :: i <= j < r.value ==> !Contains(text, table[j].key)
    ensures r.None? ==> forall j :: i <= j < |table| ==> !Contains(text, table[j].key)
    decreases |table| - i
  {
    if i == |table| then None
    else if Contains(text, table[i].key) then Some(i)
    else FirstKeyFrom(table, text, i + 1)
  }

  /** The entry of LocationTable that decides the answer for an address, if any. */
  function DecidingKey(address: string): Option<nat> {
    FirstKeyFrom(LocationTable(), ToLower(address), 0)
  }

  /** mockGeocode as a function: never null, always a table value or the default. */
  function Geocode(address: string): (c: Coord)
    ensures c == DefaultCoordinates || exists i :: 0 <= i < |LocationTable()| && c == LocationTable()[i].coord
  {
    match DecidingKey(address)
    case None => DefaultCoordinates
    case Some(i) => LocationTable()[i].coord
  }

  /** The for-of loop of mockGeocode, returning at the first key the lower-cased address
      includes and falling through to DEFAULT_COORDINATES. */
  method MockGeocode(address: string) returns (c: Coord)
    ensures c == Geocode(address)
  {
    var text := ToLower(address);
    var i := 0;
    while i < |LocationTable()|
      invariant i <= |LocationTable()|
      invariant FirstKeyFrom(LocationTable(), text, i) == FirstKeyFrom(LocationTable(), text, 0)
    {
      if Contains(text, LocationTable()[i].key) {
        return LocationTable()[i].coord;
      }
      i := i + 1;
    }
    return DefaultCoordinates;
  }

  /** k is the first position of table whose key text includes. */
  predicate FirstIncluded(table: seq<Place>, text: string, k: nat) {
    && k < |table| && Contains(text, table[k].key)
    && forall j :: 0 <= j < k ==> !Contains(text, table[j].key)
  }

  lemma FirstKeyFromIsFirst(table: seq<Place>, text: string, k: nat)
    ensures FirstKeyFrom(table, text, 0) == Some(k) <==> FirstIncluded(table, text, k)
  {
  }

  /** The deciding key is exactly the first key, in table order, that the lower-cased
      address includes. */
  lemma DecidingKeyIsFirst(address: string, k: nat)
    ensures DecidingKey(address) == Some(k) <==> FirstIncluded(LocationTable(), ToLower(address), k)
  {
    FirstKeyFromIsFirst(LocationTable(), ToLower(address), k);
  }

  /** No key is included exactly when the walk falls through to the default. */
  lemma NoKeyGivesDefault(address: string)
    ensures DecidingKey(address).None? <==>
      forall j :: 0 <= j < |LocationTable()| ==> !Contains(ToLower(address), LocationTable()[j].key)
    ensures DecidingKey(address).None? ==> Geocode(address) == DefaultCoordinates
  {
    var t, text := LocationTable(), ToLower(address);
    assert DecidingKey(address) == FirstKeyFrom(t, text, 0);
    FirstKeyFromNone(t, text);
  }

  lemma FirstKeyFromNone(table: seq<Place>, text: string)
    ensures FirstKeyFrom(table, text, 0).None? <==> forall j :: 0 <= j < |table| ==> !Contains(text, table[j].key)
  {
  }

  /** Lower-casing the address first changes nothing: the match ignores the case of the
      address. */
  lemma GeocodeIgnoresCase(address: string)
    ensures Geocode(ToLower(address)) == Geocode(address)
  {
    ToLowerIdempotent(address);
  }

  /** A key included in text keeps every later key from deciding. */
  lemma EarlierKeyWins(table: seq<Place>, text: string, a: nat, b: nat)
    requires a < b < |table| && Contains(text, table[a].key)
    ensures FirstKeyFrom(table, text, 0) != Some(b)
  {
  }

  /** Any listed ZIP code in the address beats every neighbourhood name. */
  lemma ZipCodesComeFirst(address: string, z: nat)
    requires z < ZipCount && Contains(ToLower(address), LocationTable()[z].key)
    ensures DecidingKey(address).Some? && DecidingKey(address).value <= z
  {
  }

  /** In a table in Object.entries order, of two array-index keys that text includes, the
      numerically larger one never decides. */
  lemma SmallerIndexWins(t: seq<Place>, n: nat, text: string, y: nat, z: nat)
    requires EntriesOrder(t, n) && y < n && z < n && Contains(text, t[y].key)
    requires DecimalValue(t[y].key) < DecimalValue(t[z].key)
    ensures FirstKeyFrom(t, text, 0) != Some(z)
  {
    if z < y {
      EntriesOrderAscending(t, n, z, y);
    }
    EarlierKeyWins(t, text, y, z);
  }

  /** Of two listed ZIP codes in the address, the numerically larger one never decides. */
  lemma SmallerZipWins(address: string, y: nat, z: nat)
    requires y < ZipCount && z < ZipCount
    requires Contains(ToLower(address), LocationTable()[y].key)
    requires ZipValues[y] < ZipValues[z]
    ensures DecidingKey(address) != Some(z)
  {
    ZipEntry(y);
    ZipEntry(z);
    SmallerIndexWins(LocationTable(), ZipCount, ToLower(address), y, z);
  }

  /** The positions of some keys in the walk. */
  const HoustonAt: nat := 11
  const DowntownHoustonAt: nat := 13
  const GalleriaAt: nat := 14
  const MemorialAt: nat := 15
  const MedicalCenterAt: nat := 20

  lemma KeyPositions()
    ensures Entry(ZipCount - 1).key == "77099"
    ensures Entry(HoustonAt).key == "houston"
    ensures Entry(HoustonAt + 1).key == "downtown"
    ensures Entry(DowntownHoustonAt).key == "downtown houston"
    ensures Entry(GalleriaAt).key == "galleria"
    ensures Entry(MemorialAt).key == "memorial"
    ensures Entry(MedicalCenterAt).key == "medical center"
    ensures Entry(HoustonAt).coord == DefaultCoordinates
  {
  }

  /** The facts about LocationTable the worked examples below rest on: the Object.entries
      order, the ZIP codes' spelling, and where some area names sit. */
  predicate WalkOrder(t: seq<Place>) {
    && |t| == 24
    && (forall z :: 0 <= z < ZipCount ==> |t[z].key| == 5 && t[z].key[0] == '7')
    && (forall z :: 0 <= z < ZipCount - 1 ==> t[z].key != t[ZipCount - 1].key)
    && t[ZipCount - 1].key == "77099"
    && t[HoustonAt].key == "houston"
    && t[HoustonAt + 1].key == "downtown"
    && t[DowntownHoustonAt].key == "downtown houston"
    && t[GalleriaAt].key == "galleria"
  }

  lemma LocationTableWalkOrder()
    ensures WalkOrder(LocationTable())
  {
    var t := LocationTable();
    forall z | 0 <= z < ZipCount
      ensures |t[z].key| == 5 && t[z].key[0] == '7'
    {
      ZipEntry(z);
    }
    forall z | 0 <= z < ZipCount - 1
      ensures t[z].key != t[ZipCount - 1].key
    {
      EntriesOrderAscending(t, ZipCount, z, ZipCount - 1);
    }
    KeyPositions();
  }

  /** A key that is a block of a later key keeps that later key from deciding. */
  lemma BlockKeyNeverDecides(table: seq<Place>, text: string, a: nat, b: nat, i: nat, j: nat)
    requires a < b < |table| && i <= j <= |table[b].key| && table[a].key == table[b].key[i..j]
    ensures FirstKeyFrom(table, text, 0) != Some(b)
  {
    if FirstKeyFrom(table, text, 0) == Some(b) {
      ContainsBlock(text, table[b].key, i, j);
    }
  }

  /** "downtown houston" never decides: an address including it includes "houston",
      which is walked earlier. */
  lemma DowntownHoustonNeverDecides(address: string)
    ensures DecidingKey(address) != Some(DowntownHoustonAt)
  {
    KeyPositions();
    assert LocationTable()[HoustonAt].key == LocationTable()[DowntownHoustonAt].key[9..16];
    BlockKeyNeverDecides(LocationTable(), ToLower(address), HoustonAt, DowntownHoustonAt, 9, 16);
  }

  /** Without a listed ZIP code, an address including "houston" resolves to the city
      centre, whatever other area it names. */
  lemma HoustonBeatsAreas(address: string)
    requires Contains(ToLower(address), "houston")
    requires forall z :: 0 <= z < ZipCount ==> !Contains(ToLower(address), LocationTable()[z].key)
    ensures DecidingKey(address) == Some(HoustonAt)
    ensures Geocode(address) == DefaultCoordinates
  {
    KeyPositions();
    FirstKeyFromIsFirst(LocationTable(), ToLower(address), HoustonAt);
  }

  /** An address naming "memorial" is never resolved to the medical center. */
  lemma MemorialBeatsMedicalCenter(address: string)
    requires Contains(ToLower(address), "memorial")
    ensures DecidingKey(address) != Some(MedicalCenterAt)
  {
    KeyPositions();
    EarlierKeyWins(LocationTable(), ToLower(address), MemorialAt, MedicalCenterAt);
  }

  /** A character of k that s lacks keeps k out of s. */
  lemma MissingChar(s: string, k: string, m: nat)
    requires m < |k| && k[m] !in s
    ensures !Contains(s, k)
  {
    ContainsAt(s, k);
  }

  /** When k's first character appears in s only at p among the places k could start, k
      can only occur at p. */
  lemma OnlyBlockAt(s: string, k: string, p: nat)
    requires 0 < |k| && forall i :: 0 <= i && i + |k| <= |s| && i != p ==> s[i] != k[0]
    requires !OccursAt(s, k, p)
    ensures !Contains(s, k)
  {
    forall i: nat | OccursAt(s, k, i)
      ensures i == p
    {
      assert s[i] == s[i..i + |k|][0];
    }
    ContainsAt(s, k);
  }

  /** Text that lacks a block of k lacks k. */
  lemma WithoutBlock(s: string, k: string, i: nat, j: nat)
    requires i <= j <= |k| && !Contains(s, k[i..j])
    ensures !Contains(s, k)
  {
    if Contains(s, k) {
      ContainsBlock(s, k, i, j);
    }
  }

  /** Text without a 7 includes none of the ZIP codes. */
  lemma NoZipIn(t: seq<Place>, text: string)
    requires WalkOrder(t) && '7' !in text
    ensures forall z :: 0 <= z < ZipCount ==> !Contains(text, t[z].key)
  {
    forall z | 0 <= z < ZipCount
      ensures !Contains(text, t[z].key)
    {
      MissingChar(text, t[z].key, 0);
    }
  }

  /** An address without the digit 7 includes none of the ZIP codes, so it is never
      resolved by one. */
  lemma NoZipWithoutSeven(address: string)
    requires '7' !in address
    ensures forall z :: 0 <= z < ZipCount ==> !Contains(ToLower(address), LocationTable()[z].key)
    ensures DecidingKey(address).None? || ZipCount <= DecidingKey(address).value
  {
    var text := ToLower(address);
    assert '7' !in text by {
      forall i | 0 <= i < |text|
        ensures text[i] != '7'
      {
        assert address[i] != '7';
      }
    }
    LocationTableWalkOrder();
    NoZipIn(LocationTable(), text);
  }

  /** The answer for an address whose lower-cased text is first matched at k. */
  lemma GeocodeOfFirst(address: string, k: nat)
    requires FirstIncluded(LocationTable(), ToLower(address), k)
    ensures Geocode(address) == Entry(k).coord
  {
    FirstKeyFromIsFirst(LocationTable(), ToLower(address), k);
  }

  /** Text with no ZIP code, no "houston" and no "downtown" that includes "galleria" is
      decided by the Galleria entry. */
  lemma GalleriaRule(t: seq<Place>, text: string)
    requires WalkOrder(t) && '7' !in text
    requires !Contains(text, "houston") && !Contains(text, "downtown") && Contains(text, "galleria")
    ensures FirstIncluded(t, text, GalleriaAt)
  {
    NoZipIn(t, text);
    assert t[DowntownHoustonAt].key[..8] == "downtown";
    WithoutBlock(text, t[DowntownHoustonAt].key, 0, 8);
  }

  /** Text that ends in "77099" and holds no other 7 is decided by that ZIP code. */
  lemma LastZipRule(t: seq<Place>, text: string, w: string)
    requires WalkOrder(t) && text == w + "77099" && '7' !in w
    ensures FirstIncluded(t, text, ZipCount - 1)
  {
    var p := |w|;
    forall i | 0 <= i < p
      ensures text[i] != '7'
    {
      assert text[i] == w[i];
    }
    assert text[p..] == "77099";
    forall z | 0 <= z < ZipCount - 1
      ensures !Contains(text, t[z].key)
    {
      OnlyBlockAt(text, t[z].key, p);
    }
    assert OccursAt(text, t[ZipCount - 1].key, p);
    ContainsAt(text, t[ZipCount - 1].key);
  }

  /** "I'm near the Galleria today" resolves to the Galleria: the match ignores case and
      looks for the key anywhere in the address. */
  lemma GalleriaExample(address: string)
    requires address == "I'm near the Galleria today"
    ensures Geocode(address) == Coord(29.7384, -95.4624)
  {
    GalleriaText(address);
    LocationTableWalkOrder();
    GalleriaRule(LocationTable(), ToLower(address));
    GeocodeOfFirst(address, GalleriaAt);
  }

  lemma GalleriaText(address: string)
    requires address == "I'm near the Galleria today"
    ensures var text := ToLower(address);
      && '7' !in text && !Contains(text, "houston") && !Contains(text, "downtown")
      && Contains(text, "galleria")
  {
    LowerGalleria(address);
    GalleriaFacts(ToLower(address));
  }

  lemma LowerGalleria(address: string)
    requires address == "I'm near the Galleria today"
    ensures ToLower(address) == "i'm near the galleria today"
  {
  }

  lemma GalleriaFacts(text: string)
    requires text == "i'm near the galleria today"
    ensures '7' !in text && !Contains(text, "houston") && !Contains(text, "downtown")
    ensures Contains(text, "galleria")
  {
    GalleriaLacks(text);
    MissingChar(text, "houston", 2);
    MissingChar(text, "downtown", 2);
    GalleriaIncludes(text);
  }

  lemma GalleriaLacks(text: string)
    requires text == "i'm near the galleria today"
    ensures '7' !in text && 'u' !in text && 'w' !in text
  {
  }

  lemma GalleriaIncludes(text: string)
    requires text == "i'm near the galleria today"
    ensures Contains(text, "galleria")
  {
    assert OccursAt(text, "galleria", 13);
    ContainsAt(text, "galleria");
  }

  /** "Galleria, Houston" resolves to the city centre, not the Galleria. */
  lemma GalleriaHoustonExample(address: string)
    requires address == "Galleria, Houston"
    ensures Geocode(address) == DefaultCoordinates
  {
    GalleriaHoustonText(address);
    NoZipWithoutSeven(address);
    HoustonBeatsAreas(address);
  }

  lemma GalleriaHoustonText(address: string)
    requires address == "Galleria, Houston"
    ensures '7' !in address && Contains(ToLower(address), "houston")
  {
    LowerGalleriaHouston(address);
    HoustonIncluded(ToLower(address));
  }

  lemma LowerGalleriaHouston(address: string)
    requires address == "Galleria, Houston"
    ensures '7' !in address && ToLower(address) == "galleria, houston"
  {
  }

  lemma HoustonIncluded(text: string)
    requires text == "galleria, houston"
    ensures Contains(text, "houston")
  {
    assert OccursAt(text, "houston", 10);
    ContainsAt(text, "houston");
  }

  /** "houston 77099" resolves to the 77099 ZIP code, not the city centre. */
  lemma ZipExample(address: string)
    requires address == "houston 77099"
    ensures Geocode(address) == Coord(29.6589, -95.5812)
  {
    var w := ZipText(address);
    LocationTableWalkOrder();
    LastZipRule(LocationTable(), ToLower(address), w);
    GeocodeOfFirst(address, ZipCount - 1);
  }

  lemma ZipText(address: string) returns (w: string)
    requires address == "houston 77099"
    ensures ToLower(address) == w + "77099" && '7' !in w
  {
    w := "houston ";
    assert ToLower(address) == address;
    assert address == w + "77099";
  }
}
