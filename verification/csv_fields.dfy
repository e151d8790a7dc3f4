/** The quote-aware comma splitter of the CSV ingestion script: one boolean of state,
    a double quote toggles it and is dropped, a comma outside quotes ends a field,
    every field is trimmed. */
module CsvFields {
  import opened Text

  /** The commas that act as separators: those met outside quotes, starting in the
      given quote state. */
  function SeparatorCount(s: string, inQuotes: bool): nat {
    if |s| == 0 then 0
    else if s[0] == '"' then SeparatorCount(s[1..], !inQuotes)
    else (if s[0] == ',' && !inQuotes then 1 else 0) + SeparatorCount(s[1..], inQuotes)
  }

  /** The line with every double quote removed. */
  function StripQuotes(s: string): string {
    if |s| == 0 then "" else (if s[0] == '"' then "" else [s[0]]) + StripQuotes(s[1..])
  }

  /** The untrimmed fields of the rest s of a line, given the quote state and the text
      of the field collected so far. */
  function RawFieldsFrom(s: string, inQuotes: bool, current: string): (r: seq<string>)
    ensures |r| == 1 + SeparatorCount(s, inQuotes)
    ensures '"' !in current ==> forall i :: 0 <= i < |r| ==> '"' !in r[i]
    decreases |s|
  {
    if |s| == 0 then [current]
    else if s[0] == '"' then RawFieldsFrom(s[1..], !inQuotes, current)
    else if s[0] == ',' && !inQuotes then
      var rest := RawFieldsFrom(s[1..], inQuotes, "");
      assert ([current] + rest)[1..] == rest;
      [current] + rest
    else
      RawFieldsFrom(s[1..], inQuotes, current + [s[0]])
  }

  /** Joining the fields with "," gives the collected text followed by the rest of the
      line without its quotes: the splitter loses nothing but the quotes. */
  lemma {:induction false} RawFieldsFromJoin(s: string, inQuotes: bool, current: string)
    ensures Join(RawFieldsFrom(s, inQuotes, current), ',') == current + StripQuotes(s)
    decreases |s|
  {
    if |s| == 0 {
      assert current + StripQuotes(s) == current;
    } else if s[0] == '"' {
      RawFieldsFromJoin(s[1..], !inQuotes, current);
      assert StripQuotes(s) == StripQuotes(s[1..]);
    } else if s[0] == ',' && !inQuotes {
      RawFieldsFromJoin(s[1..], inQuotes, "");
      JoinAtComma(s, inQuotes, current);
    } else {
      RawFieldsFromJoin(s[1..], inQuotes, current + [s[0]]);
      JoinAtChar(s, inQuotes, current);
    }
  }

  /** The step of RawFieldsFromJoin at a separating comma. */
  lemma JoinAtComma(s: string, inQuotes: bool, current: string)
    requires 0 < |s| && s[0] == ',' && !inQuotes
    requires Join(RawFieldsFrom(s[1..], inQuotes, ""), ',') == "" + StripQuotes(s[1..])
    ensures Join(RawFieldsFrom(s, inQuotes, current), ',') == current + StripQuotes(s)
  {
    var rest := RawFieldsFrom(s[1..], inQuotes, "");
    var parts := [current] + rest;
    assert RawFieldsFrom(s, inQuotes, current) == parts;
    assert parts[0] == current && parts[1..] == rest && |parts| >= 2;
    assert Join(parts, ',') == current + [','] + Join(rest, ',');
    assert StripQuotes(s) == [','] + StripQuotes(s[1..]);
  }

  /** The step of RawFieldsFromJoin at a character that joins the field. */
  lemma JoinAtChar(s: string, inQuotes: bool, current: string)
    requires 0 < |s| && s[0] != '"' && (s[0] != ',' || inQuotes)
    requires Join(RawFieldsFrom(s[1..], inQuotes, current + [s[0]]), ',') == current + [s[0]] + StripQuotes(s[1..])
    ensures Join(RawFieldsFrom(s, inQuotes, current), ',') == current + StripQuotes(s)
  {
    assert RawFieldsFrom(s, inQuotes, current) == RawFieldsFrom(s[1..], inQuotes, current + [s[0]]);
    assert StripQuotes(s) == [s[0]] + StripQuotes(s[1..]);
    assert current + [s[0]] + StripQuotes(s[1..]) == current + StripQuotes(s);
  }

  /** The untrimmed fields of a whole line. */
  function RawFields(line: string): (r: seq<string>)
    ensures |r| == 1 + SeparatorCount(line, false)
    ensures forall i :: 0 <= i < |r| ==> '"' !in r[i]
    ensures Join(r, ',') == StripQuotes(line)
  {
    RawFieldsFromJoin(line, false, "");
    assert "" + StripQuotes(line) == StripQuotes(line);
    RawFieldsFrom(line, false, "")
  }

  /** Applies f to every element, keeping the order. */
  function MapAll(f: string -> string, xs: seq<string>): (r: seq<string>)
    ensures |r| == |xs|
  {
    if |xs| == 0 then [] else [f(xs[0])] + MapAll(f, xs[1..])
  }

  lemma {:induction false} MapAllAt(f: string -> string, xs: seq<string>, i: nat)
    requires i < |xs|
    ensures MapAll(f, xs)[i] == f(xs[i])
  {
    if i > 0 {
      MapAllAt(f, xs[1..], i - 1);
    }
  }

  lemma {:induction false} MapAllSnoc(f: string -> string, xs: seq<string>, x: string)
    ensures MapAll(f, xs + [x]) == MapAll(f, xs) + [f(x)]
  {
    if |xs| > 0 {
      assert (xs + [x])[1..] == xs[1..] + [x];
      MapAllSnoc(f, xs[1..], x);
    }
  }

  /** Trimming keeps a field free of double quotes. */
  lemma TrimKeepsQuoteFree(x: string)
    requires '"' !in x
    ensures '"' !in Trim(x)
  {
    var i, j := TrimIsInnerBlock(x);
    assert forall k :: 0 <= k < |Trim(x)| ==> Trim(x)[k] == x[i + k];
  }

  /** The fields of one line: never fails, one field more than there are commas outside
      quotes, no field holds a double quote, every field is already trimmed. */
  function SplitFields(line: string): (fields: seq<string>)
    ensures |fields| == 1 + SeparatorCount(line, false)
    ensures forall i :: 0 <= i < |fields| ==> '"' !in fields[i] && IsTrimmed(fields[i])
  {
    var raw := RawFields(line);
    var fields := MapAll(Trim, raw);
    assert forall i :: 0 <= i < |fields| ==> '"' !in fields[i] && IsTrimmed(fields[i]) by {
      forall i | 0 <= i < |fields|
        ensures '"' !in fields[i] && IsTrimmed(fields[i])
      {
        MapAllAt(Trim, raw, i);
        TrimKeepsQuoteFree(raw[i]);
        TrimmedIffFixed(raw[i]);
      }
    }
    fields
  }

  /** A comma between quotes stays inside its field: a line x,"v",w whose middle field
      holds commas, as in a,"b,c",d, has exactly the three fields x, v and w. */
  lemma QuotedFieldKeepsCommas(x: string, v: string, w: string)
    requires '"' !in x && ',' !in x && '"' !in v && '"' !in w && ',' !in w
    ensures RawFields(x + [',', '"'] + v + ['"', ','] + w) == [x, v, w]
  {
    var r2 := ['"'] + (v + (['"'] + ([','] + w)));
    var r1 := [','] + r2;
    assert x + [',', '"'] + v + ['"', ','] + w == x + r1;
    PlainRun(x, r1, false, "");
    assert "" + x == x;
    assert r1[1..] == r2;
    CommaStep(r1, false, x);
    QuotedTail(v, w);
    assert [x] + [v, w] == [x, v, w];
  }

  /** The quoted field v, its closing quote, the comma and the last field w. */
  lemma QuotedTail(v: string, w: string)
    requires '"' !in v && '"' !in w && ',' !in w
    ensures RawFieldsFrom(['"'] + (v + (['"'] + ([','] + w))), false, "") == [v, w]
  {
    var r5 := [','] + w;
    var r4 := ['"'] + r5;
    var r2 := ['"'] + (v + r4);
    assert r2[1..] == v + r4 && r4[1..] == r5 && r5[1..] == w;
    QuoteStep(r2, false, "");
    PlainRun(v, r4, true, "");
    assert "" + v == v;
    QuoteStep(r4, true, v);
    CommaStep(r5, false, v);
    PlainRun(w, [], false, "");
    assert w + [] == w && "" + w == w;
    assert RawFieldsFrom([], false, w) == [w];
    assert [v] + [w] == [v, w];
  }

  /** A quote flips the quote state and is dropped. */
  lemma QuoteStep(s: string, inQuotes: bool, current: string)
    requires 0 < |s| && s[0] == '"'
    ensures RawFieldsFrom(s, inQuotes, current) == RawFieldsFrom(s[1..], !inQuotes, current)
  {
  }

  /** A comma outside quotes closes the current field. */
  lemma CommaStep(s: string, inQuotes: bool, current: string)
    requires 0 < |s| && s[0] == ',' && !inQuotes
    ensures RawFieldsFrom(s, inQuotes, current) == [current] + RawFieldsFrom(s[1..], inQuotes, "")
  {
  }

  /** Characters that neither toggle the quote state nor separate are collected into the
      current field. */
  lemma {:induction false} PlainRun(s: string, rest: string, inQuotes: bool, current: string)
    requires '"' !in s && (inQuotes || ',' !in s)
    ensures RawFieldsFrom(s + rest, inQuotes, current) == RawFieldsFrom(rest, inQuotes, current + s)
    decreases |s|
  {
    if |s| > 0 {
      assert (s + rest)[0] == s[0] && (s + rest)[1..] == s[1..] + rest;
      PlainRun(s[1..], rest, inQuotes, current + [s[0]]);
      assert current + [s[0]] + s[1..] == current + s;
    } else {
      assert s + rest == rest && current + s == current;
    }
  }

  /** After an unbalanced quote the rest of the line, commas included, is one field. */
  lemma {:induction false} UnclosedQuoteKeepsRest(s: string, current: string)
    requires '"' !in s
    ensures RawFieldsFrom(s, true, current) == [current + s]
  {
    if |s| > 0 {
      assert '"' !in s[1..];
      UnclosedQuoteKeepsRest(s[1..], current + [s[0]]);
      assert current + [s[0]] + s[1..] == current + s;
    } else {
      assert current + s == current;
    }
  }

  /** The source's character loop, verified against SplitFields. */
  method SplitLine(line: string) returns (fields: seq<string>)
    ensures fields == SplitFields(line)
    ensures |fields| == 1 + SeparatorCount(line, false)
  {
    fields := [];
    ghost var done: seq<string> := [];
    var current := "";
    var inQuotes := false;
    var i := 0;
    assert line[i..] == line;
    while i < |line|
      invariant 0 <= i <= |line|
      invariant fields == MapAll(Trim, done)
      invariant done + RawFieldsFrom(line[i..], inQuotes, current) == RawFields(line)
    {
      var c := line[i];
      assert line[i..][0] == c && line[i..][1..] == line[i + 1..];
      if c == '"' {
        assert RawFieldsFrom(line[i..], inQuotes, current)
          == RawFieldsFrom(line[i + 1..], !inQuotes, current);
        inQuotes := !inQuotes;
      } else if c == ',' && !inQuotes {
        var rest := RawFieldsFrom(line[i + 1..], inQuotes, "");
        assert RawFieldsFrom(line[i..], inQuotes, current) == [current] + rest;
        assert done + ([current] + rest) == (done + [current]) + rest;
        MapAllSnoc(Trim, done, current);
        fields := fields + [Trim(current)];
        done := done + [current];
        current := "";
      } else {
        assert RawFieldsFrom(line[i..], inQuotes, current)
          == RawFieldsFrom(line[i + 1..], inQuotes, current + [c]);
        current := current + [c];
      }
      i := i + 1;
    }
    assert line[i..] == [];
    MapAllSnoc(Trim, done, current);
    fields := fields + [Trim(current)];
  }
}
