/** The CSV import: the non-blank lines of the file, the first of them a header, every
    other one normalised into a Restaurant whose id is its position among the data lines. */
module Catalog {
  import opened Wrappers
  import opened Text
  import opened RestaurantTypes
  import opened CsvFields
  import opened Hours
  import opened Price

  /** filter(line => line.trim()): the lines holding something other than white space,
      in their order. A line trims to "" exactly when it is all white space
      (Text.TrimEmptyIffSpaces), which is the test written here. */
  function NonBlank(lines: seq<string>): (r: seq<string>)
    ensures |r| <= |lines|
    ensures forall i :: 0 <= i < |r| ==> !AllSpaces(r[i])
  {
    if |lines| == 0 then []
    else (if !AllSpaces(lines[0]) then [lines[0]] else []) + NonBlank(lines[1..])
  }

  /** Filtering keeps exactly the lines whose trimmed text is not "". */
  lemma {:induction false} NonBlankMembers(lines: seq<string>, x: string)
    ensures x in NonBlank(lines) <==> x in lines && Trim(x) != ""
  {
    TrimEmptyIffSpaces(x);
    if |lines| > 0 {
      NonBlankMembers(lines[1..], x);
      assert lines == [lines[0]] + lines[1..];
    }
  }

  /** Filtering a concatenation filters each part. */
  lemma {:induction false} NonBlankConcat(a: seq<string>, b: seq<string>)
    ensures NonBlank(a + b) == NonBlank(a) + NonBlank(b)
  {
    if |a| > 0 {
      var head := if !AllSpaces(a[0]) then [a[0]] else [];
      assert (a + b)[0] == a[0] && (a + b)[1..] == a[1..] + b;
      assert NonBlank(a + b) == head + NonBlank(a[1..] + b);
      NonBlankConcat(a[1..], b);
      assert NonBlank(a) == head + NonBlank(a[1..]);
      assert head + (NonBlank(a[1..]) + NonBlank(b)) == (head + NonBlank(a[1..])) + NonBlank(b);
    } else {
      assert a + b == b;
    }
  }

  /** csvContent.split('\n').filter(line => line.trim()) */
  function Lines(content: string): (r: seq<string>)
    ensures |r| <= |Split(content, '\n')|
    ensures forall i :: 0 <= i < |r| ==> !AllSpaces(r[i])
  {
    NonBlank(Split(content, '\n'))
  }

  /** fields[k] || '': a missing field reads as "". */
  function Field(fields: seq<string>, k: nat): string {
    if k < |fields| then fields[k] else ""
  }

  /** a || b on strings: b when a is "". */
  function OrElse(a: string, b: string): (r: string)
    ensures r != "" <==> a != "" || b != ""
    ensures r == a || r == b
    ensures a != "" ==> r == a
  {
    if a != "" then a else b
  }

  const DefaultCuisine := "Indian"
  const DefaultPriceText := "$10-20"
  const DefaultDescription := "Authentic cuisine and excellent service"
  const DefaultRating := 4.0

  /** (fields[4] || 'Indian').split('/')[0]: the text before the first "/", which is ""
      when the field starts with one. */
  function CuisineOf(cuisineField: string): (c: string)
    ensures c <= OrElse(cuisineField, DefaultCuisine)
    ensures '/' !in c
    ensures |c| == |OrElse(cuisineField, DefaultCuisine)| || OrElse(cuisineField, DefaultCuisine)[|c|] == '/'
  {
    FirstPiece(OrElse(cuisineField, DefaultCuisine), '/');
    Split(OrElse(cuisineField, DefaultCuisine), '/')[0]
  }

  /** parseFloat(fields[8]) || 4.0: NaN (no number at the start of the text, and always
      for "") and 0 both give 4.0. parseFloat itself is a parameter: None stands for NaN. */
  function RatingOf(parseFloat: string -> Option<real>, ratingField: string): (r: real)
    ensures r != 0.0
    ensures r == DefaultRating || (ratingField != "" && parseFloat(ratingField) == Some(r))
    ensures ratingField != "" && parseFloat(ratingField).Some? && parseFloat(ratingField).value != 0.0
      ==> r == parseFloat(ratingField).value
  {
    if ratingField == "" then DefaultRating
    else match parseFloat(ratingField)
      case None => DefaultRating
      case Some(v) => if v == 0.0 then DefaultRating else v
  }

  /** The restaurant built from the data line at 0-based position k of total data lines
      (the script's loop index i is k + 1). generateCoordinates(i - 1, total) uses
      Math.cos and Math.sin and is the parameter place. */
  function Normalise(line: string, k: nat, total: nat, parseFloat: string -> Option<real>,
                     place: (nat, nat) -> Coord): (r: Restaurant)
    ensures r.id == NatToString(k + 1)
    ensures var f := SplitFields(line);
      && r.name == Field(f, 0) && r.address == Field(f, 1) && r.phone == Field(f, 2)
      && r.operatingHoursDetailed == Field(f, 3) && r.cuisine == CuisineOf(Field(f, 4))
      && r.rating == RatingOf(parseFloat, Field(f, 8))
    ensures '"' !in r.name && IsTrimmed(r.name)
    ensures '/' !in r.cuisine && r.description != "" && r.rating != 0.0
    ensures IsTier(r.priceRange)
    ensures r.priceRange == ConvertPriceRange(OrElse(Field(SplitFields(line), 7), DefaultPriceText))
    ensures r.latitude == place(k, total).latitude && r.longitude == place(k, total).longitude
    ensures (r.openingHours, r.closingHours) == (ParseOperatingHours(r.operatingHoursDetailed).opening,
                                                 ParseOperatingHours(r.operatingHoursDetailed).closing)
  {
    var f := SplitFields(line);
    var hoursText := Field(f, 3);
    var hours := ParseOperatingHours(hoursText);
    var coord := place(k, total);
    Restaurant(
      id := NatToString(k + 1),
      name := Field(f, 0),
      address := Field(f, 1),
      cuisine := CuisineOf(Field(f, 4)),
      rating := RatingOf(parseFloat, Field(f, 8)),
      priceRange := ConvertPriceRange(OrElse(Field(f, 7), DefaultPriceText)),
      openingHours := hours.opening,
      closingHours := hours.closing,
      operatingHoursDetailed := hoursText,
      latitude := coord.latitude,
      longitude := coord.longitude,
      phone := Field(f, 2),
      description := OrElse(Field(f, 10), OrElse(Field(f, 6), DefaultDescription)))
  }

  /** An empty or missing cuisine field reads as the default cuisine, which holds no "/". */
  lemma CuisineDefault(cuisineField: string)
    requires cuisineField == ""
    ensures CuisineOf(cuisineField) == DefaultCuisine
  {
    assert '/' !in DefaultCuisine;
    SplitWithoutSeparator(DefaultCuisine, '/');
  }

  /** The price text used for an empty field, "$10-20", averages exactly 15 and so lands
      in the second tier, not the first. */
  lemma DefaultPriceIsSecondTier(priceText: string)
    requires priceText == DefaultPriceText
    ensures ConvertPriceRange(priceText) == "$$"
  {
    TierAt(priceText, "10", "20", 2);
    assert Dollars(2) == "$$";
  }

  /** The per-field fallbacks of a record: missing text fields read as "", an empty
      cuisine as "Indian", an empty price as the second tier, and the description is
      field 10, else field 6, else the fixed sentence. */
  lemma RecordFallbacks(line: string, k: nat, total: nat, parseFloat: string -> Option<real>,
                        place: (nat, nat) -> Coord)
    ensures var f := SplitFields(line);
      var r := Normalise(line, k, total, parseFloat, place);
      && (|f| <= 1 ==> r.address == "")
      && (|f| <= 2 ==> r.phone == "")
      && (|f| <= 3 ==> r.operatingHoursDetailed == "")
      && (Field(f, 4) != "" ==> r.cuisine == Split(Field(f, 4), '/')[0])
      && (Field(f, 4) == "" ==> r.cuisine == DefaultCuisine)
      && (Field(f, 7) == "" ==> r.priceRange == "$$")
      && (Field(f, 10) != "" ==> r.description == Field(f, 10))
      && (Field(f, 10) == "" && Field(f, 6) != "" ==> r.description == Field(f, 6))
      && (Field(f, 10) == "" && Field(f, 6) == "" ==> r.description == DefaultDescription)
  {
    var f := SplitFields(line);
    if Field(f, 4) == "" {
      CuisineDefault(Field(f, 4));
    }
    if Field(f, 7) == "" {
      DefaultPriceIsSecondTier(OrElse(Field(f, 7), DefaultPriceText));
    }
  }

  /** lines[0].split(',') throws a TypeError when the file has no non-blank line. */
  datatype CatalogError = NoHeaderLine

  /** The catalog the script writes: one restaurant per data line after the header. */
  function BuildCatalog(content: string, parseFloat: string -> Option<real>,
                        place: (nat, nat) -> Coord): (r: Result<seq<Restaurant>, CatalogError>)
    ensures r.Failure? <==> Lines(content) == []
    ensures r.Success? ==> |r.value| == |Lines(content)| - 1
  {
    FromLines(Lines(content), parseFloat, place)
  }

  /** The catalog built from the non-blank lines: the first is the header, and the rest
      are normalised with their positions among the data lines. */
  function FromLines(lines: seq<string>, parseFloat: string -> Option<real>,
                     place: (nat, nat) -> Coord): (r: Result<seq<Restaurant>, CatalogError>)
    ensures r.Failure? <==> lines == []
    ensures r.Success? ==> |r.value| == |lines| - 1
  {
    if |lines| == 0 then Failure(NoHeaderLine)
    else Success(MapRows(lines[1..], 0, Row(|lines| - 1, parseFloat, place)))
  }

  /** Normalise with the file-wide arguments fixed. */
  function Row(total: nat, parseFloat: string -> Option<real>, place: (nat, nat) -> Coord)
    : (string, nat) -> Restaurant
  {
    (line: string, k: nat) => Normalise(line, k, total, parseFloat, place)
  }

  lemma RowIsNormalise(total: nat, parseFloat: string -> Option<real>, place: (nat, nat) -> Coord,
                       line: string, k: nat)
    ensures Row(total, parseFloat, place)(line, k) == Normalise(line, k, total, parseFloat, place)
  {
  }

  /** The lines of data, each turned into a record by row with its position, counted from
      first. */
  function MapRows<T>(data: seq<string>, first: nat, row: (string, nat) -> T): (rs: seq<T>)
    ensures |rs| == |data|
  {
    if |data| == 0 then [] else [row(data[0], first)] + MapRows(data[1..], first + 1, row)
  }

  lemma {:induction false} MapRowsAt<T>(data: seq<string>, first: nat, row: (string, nat) -> T, k: nat)
    requires k < |data|
    ensures MapRows(data, first, row)[k] == row(data[k], first + k)
  {
    if k > 0 {
      MapRowsAt(data[1..], first + 1, row, k - 1);
    }
  }

  /** The first non-blank line is the header and never becomes a restaurant: record k is
      data line k + 1, normalised at position k of |lines| - 1. */
  lemma RecordsComeFromDataLines(content: string, parseFloat: string -> Option<real>,
                                 place: (nat, nat) -> Coord, k: nat)
    ensures var r := BuildCatalog(content, parseFloat, place);
      var lines := Lines(content);
      r.Success? && k < |r.value| ==>
        k + 1 < |lines| && r.value[k] == Normalise(lines[k + 1], k, |lines| - 1, parseFloat, place)
  {
    var lines := Lines(content);
    var r := BuildCatalog(content, parseFloat, place);
    assert r == FromLines(lines, parseFloat, place);
    if r.Success? && k < |r.value| {
      RecordFromLine(lines, parseFloat, place, k);
    }
  }

  lemma RecordFromLine(lines: seq<string>, parseFloat: string -> Option<real>,
                       place: (nat, nat) -> Coord, k: nat)
    requires k + 1 < |lines|
    ensures FromLines(lines, parseFloat, place).value[k]
         == Normalise(lines[k + 1], k, |lines| - 1, parseFloat, place)
  {
    var row := Row(|lines| - 1, parseFloat, place);
    MapRowsAt(lines[1..], 0, row, k);
    assert lines[1..][k] == lines[k + 1];
    RowIsNormalise(|lines| - 1, parseFloat, place, lines[k + 1], k);
  }

  /** Ids are "1", "2", ... in catalog order, so no two restaurants share one. */
  lemma IdsDenseAndDistinct(content: string, parseFloat: string -> Option<real>,
                            place: (nat, nat) -> Coord)
    ensures var r := BuildCatalog(content, parseFloat, place);
      r.Success? ==> forall k :: 0 <= k < |r.value| ==> r.value[k].id == NatToString(k + 1)
    ensures var r := BuildCatalog(content, parseFloat, place);
      r.Success? ==> forall j, k :: 0 <= j < k < |r.value| ==> r.value[j].id != r.value[k].id
  {
    var r := BuildCatalog(content, parseFloat, place);
    assert r == FromLines(Lines(content), parseFloat, place);
    if r.Success? {
      var rs := r.value;
      forall k | 0 <= k < |rs|
        ensures rs[k].id == NatToString(k + 1)
      {
        RecordsComeFromDataLines(content, parseFloat, place, k);
      }
      DenseIdsDistinct(rs);
    }
  }

  /** Ids numbered by position are pairwise different. */
  lemma DenseIdsDistinct(rs: seq<Restaurant>)
    requires forall k :: 0 <= k < |rs| ==> rs[k].id == NatToString(k + 1)
    ensures forall j, k :: 0 <= j < k < |rs| ==> rs[j].id != rs[k].id
  {
    forall j, k | 0 <= j < k < |rs|
      ensures rs[j].id != rs[k].id
    {
      NatToStringInjective(j + 1, k + 1);
    }
  }

  /** Splitting at the newlines around a line without one yields that line as a piece. */
  lemma SplitAroundLine(a: string, blank: string, b: string)
    requires '\n' !in blank
    ensures Split(a + "\n" + blank + "\n" + b, '\n') == Split(a, '\n') + [blank] + Split(b, '\n')
  {
    var t := blank + "\n" + b;
    assert a + "\n" + blank + "\n" + b == a + "\n" + t;
    SplitAtNewline(a, t);
    SplitLineFirst(blank, b);
  }

  lemma SplitLineFirst(line: string, b: string)
    requires '\n' !in line
    ensures Split(line + "\n" + b, '\n') == [line] + Split(b, '\n')
  {
    SplitAtNewline(line, b);
    SplitWithoutSeparator(line, '\n');
  }

  /** Blank or white-space-only lines between two lines are filtered out. */
  lemma BlankLineFiltered(a: string, blank: string, b: string)
    requires AllSpaces(blank) && '\n' !in blank
    ensures Lines(a + "\n" + blank + "\n" + b) == Lines(a + "\n" + b)
  {
    SplitAroundLine(a, blank, b);
    SplitAtNewline(a, b);
    NonBlankSkipsBlank(Split(a, '\n'), blank, Split(b, '\n'));
  }

  lemma SplitAtNewline(a: string, b: string)
    ensures Split(a + "\n" + b, '\n') == Split(a, '\n') + Split(b, '\n')
  {
    assert a + "\n" + b == a + ['\n'] + b;
    SplitConcat(a, b, '\n');
  }

  lemma NonBlankSkipsBlank(xs: seq<string>, blank: string, ys: seq<string>)
    requires AllSpaces(blank)
    ensures NonBlank(xs + [blank] + ys) == NonBlank(xs + ys)
  {
    assert NonBlank([blank]) == [];
    NonBlankConcat(xs + [blank], ys);
    NonBlankConcat(xs, [blank]);
    NonBlankConcat(xs, ys);
  }

  /** So a blank line changes neither the records nor their ids. */
  lemma BlankLineIgnored(a: string, blank: string, b: string, parseFloat: string -> Option<real>,
                         place: (nat, nat) -> Coord)
    requires AllSpaces(blank) && '\n' !in blank
    ensures BuildCatalog(a + "\n" + blank + "\n" + b, parseFloat, place)
         == BuildCatalog(a + "\n" + b, parseFloat, place)
  {
    BlankLineFiltered(a, blank, b);
  }

  /** The script's loop over the data lines, verified against BuildCatalog. Its
      `if (!line.trim()) continue;` can never fire, because every line left by the filter
      has text (NonBlank), so the loop here has no such branch. */
  method ImportRestaurants(content: string, parseFloat: string -> Option<real>,
                           place: (nat, nat) -> Coord)
    returns (r: Result<seq<Restaurant>, CatalogError>)
    ensures r == BuildCatalog(content, parseFloat, place)
    ensures r.Failure? <==> Lines(content) == []
    ensures r.Success? ==> |r.value| + 1 == |Lines(content)|
    ensures r.Success? ==> forall k :: 0 <= k < |r.value| ==>
      r.value[k] == Normalise(Lines(content)[k + 1], k, |r.value|, parseFloat, place)
  {
    var lines := Lines(content);
    r := ImportLines(lines, parseFloat, place);
    if r.Success? {
      forall k | 0 <= k < |r.value|
        ensures r.value[k] == Normalise(lines[k + 1], k, |r.value|, parseFloat, place)
      {
        RecordFromLine(lines, parseFloat, place, k);
      }
    }
  }

  /** The loop of ImportRestaurants over the filtered lines: line i becomes
      Normalise(lines[i], i - 1, |lines| - 1, ...), applied through Row. */
  method ImportLines(lines: seq<string>, parseFloat: string -> Option<real>,
                     place: (nat, nat) -> Coord)
    returns (r: Result<seq<Restaurant>, CatalogError>)
    ensures r == FromLines(lines, parseFloat, place)
  {
    if |lines| == 0 {
      return Failure(NoHeaderLine);
    }
    var restaurants := RowLoop(lines[1..], 0, Row(|lines| - 1, parseFloat, place));
    r := Success(restaurants);
  }

  /** The forEach over the data lines, appending one record per line in order. */
  method RowLoop<T>(data: seq<string>, first: nat, row: (string, nat) -> T) returns (rs: seq<T>)
    ensures rs == MapRows(data, first, row)
  {
    rs := [];
    var i := 0;
    // The script's `if (!line.trim()) continue;` has no branch here: every line that
    // reaches this loop survived the blank-line filter of Lines, so it never fires.
    while i < |data|
      invariant i <= |data|
      invariant rs + MapRows(data[i..], first + i, row) == MapRows(data, first, row)
    {
      MapRowsCons(data[i..], first + i, row);
      assert data[i..][1..] == data[i + 1..];
      rs := rs + [row(data[i], first + i)];
      i := i + 1;
    }
    assert data[i..] == [];
  }

  lemma MapRowsCons<T>(data: seq<string>, first: nat, row: (string, nat) -> T)
    requires 0 < |data|
    ensures MapRows(data, first, row) == [row(data[0], first)] + MapRows(data[1..], first + 1, row)
  {
  }
}
