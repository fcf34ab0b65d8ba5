/** Address text handling of the geocoder (sheetsService.js): normalizeAddress and the
    ordered, case-insensitively deduplicated list of query variants. String.prototype.toLowerCase
    is the parameter `lower`; the model does not implement Unicode case mapping. */
module Address {
  import opened JsStrings
  import opened Seqs

  const Country := "Россия"
  const CountryPrefix := "Россия, "
  const StreetPrefix := "улица "

  /** The street-type tokens normalizeAddress looks for in the lower-cased street. */
  const StreetTypes: seq<string> :=
    ["улица", "ул.", "проспект", "пр-т", "шоссе", "ш.", "бульвар", "бул.", "проезд", "пер.", "переулок", "наб.", "площадь", "пл."]

  /** A comma-separated field as normalizeAddress sees it: non-empty, trimmed, without a comma. */
  predicate IsField(s: string) {
    s != "" && IsTrimmed(s) && ',' !in s
  }

  /** `pieces.map(p => p.trim()).filter(Boolean)`. */
  function TrimmedNonEmpty(pieces: seq<string>): seq<string> {
    if |pieces| == 0 then []
    else (if Trim(pieces[0]) == "" then [] else [Trim(pieces[0])]) + TrimmedNonEmpty(pieces[1..])
  }

  /** `s.split(',').map(p => p.trim()).filter(Boolean)`. */
  function Parts(s: string): seq<string> {
    TrimmedNonEmpty(Split(s, ','))
  }

  /** `tokens.some(t => lowered.includes(t))`. */
  predicate HasStreetType(lowered: string) {
    exists k :: 0 <= k < |StreetTypes| && Contains(lowered, StreetTypes[k])
  }

  /** normalizeAddress: with at least three fields, "Россия, city, street, house" where the
      street gets "улица " in front unless it names a street type and the house is the
      remaining fields joined by spaces; otherwise the country in front of the input. */
  function NormalizeAddress(address: string, lower: string -> string): (r: string)
    ensures CountryPrefix <= r
  {
    var parts := Parts(address);
    if |parts| >= 3 then
      var street := if HasStreetType(lower(parts[1])) then parts[1] else StreetPrefix + parts[1];
      CountryPrefix + parts[0] + ", " + street + ", " + Join(parts[2..], " ")
    else
      CountryPrefix + address
  }

  // ---------------------------------------------------------------- fields of a normalized address

  lemma TrimSpaceFront(x: string)
    ensures Trim(" " + x) == Trim(x)
  {
    assert (" " + x)[1..] == x;
    assert LeadingSpaces(" " + x) == 1 + LeadingSpaces(x);
    assert TrimStart(" " + x) == TrimStart(x);
  }

  lemma TrimInfix(s: string, c: char)
    requires c !in s
    ensures c !in Trim(s)
  {
    var t := Trim(s);
    var i := TrimSplit(s);
    forall k | 0 <= k < |t| ensures t[k] != c {
      assert t[k] == s[i..i + |t|][k] == s[i + k];
      assert s[i + k] in s;
    }
  }

  lemma {:induction false} TrimmedNonEmptyAppend(a: seq<string>, b: seq<string>)
    ensures TrimmedNonEmpty(a + b) == TrimmedNonEmpty(a) + TrimmedNonEmpty(b)
  {
    if |a| > 0 {
      var head := if Trim(a[0]) == "" then [] else [Trim(a[0])];
      assert (a + b)[0] == a[0];
      assert (a + b)[1..] == a[1..] + b;
      calc {
        TrimmedNonEmpty(a + b);
        head + TrimmedNonEmpty(a[1..] + b);
        { TrimmedNonEmptyAppend(a[1..], b); }
        head + (TrimmedNonEmpty(a[1..]) + TrimmedNonEmpty(b));
        (head + TrimmedNonEmpty(a[1..])) + TrimmedNonEmpty(b);
        TrimmedNonEmpty(a) + TrimmedNonEmpty(b);
      }
    } else {
      assert a + b == b;
    }
  }

  lemma {:induction false} TrimmedNonEmptyFields(pieces: seq<string>)
    requires forall k :: 0 <= k < |pieces| ==> ',' !in pieces[k]
    ensures forall k :: 0 <= k < |TrimmedNonEmpty(pieces)| ==> IsField(TrimmedNonEmpty(pieces)[k])
  {
    if |pieces| > 0 {
      TrimmedNonEmptyFields(pieces[1..]);
      TrimIsTrimmed(pieces[0]);
      TrimInfix(pieces[0], ',');
    }
  }

  /** Every part of an address is a field. */
  lemma PartsAreFields(s: string)
    ensures forall k :: 0 <= k < |Parts(s)| ==> IsField(Parts(s)[k])
  {
    TrimmedNonEmptyFields(Split(s, ','));
  }

  /** Appending ", field" to a text appends exactly that field to its parts. */
  lemma PartsAppendField(x: string, f: string)
    requires IsField(f)
    ensures Parts(x + ", " + f) == Parts(x) + [f]
  {
    assert x + ", " + f == x + [','] + (" " + f);
    SplitConcat(x, " " + f, ',');
    assert ',' !in " " + f;
    SplitWithoutSeparator(" " + f, ',');
    TrimmedNonEmptyAppend(Split(x, ','), [" " + f]);
    TrimSpaceFront(f);
    TrimOfTrimmed(f);
  }

  lemma PartsOfField(f: string)
    requires IsField(f)
    ensures Parts(f) == [f]
  {
    SplitWithoutSeparator(f, ',');
    TrimOfTrimmed(f);
    assert TrimmedNonEmpty([f]) == [Trim(f)] + TrimmedNonEmpty([f][1..]);
    assert [f][1..] == [];
  }

  lemma SplitAfterSpace(a: string)
    ensures Split(" " + a, ',') == [" " + Split(a, ',')[0]] + Split(a, ',')[1..]
  {
    assert (" " + a)[1..] == a;
  }

  lemma TrimmedNonEmptySpaceFront(x: string, rest: seq<string>)
    ensures TrimmedNonEmpty([" " + x] + rest) == TrimmedNonEmpty([x] + rest)
  {
    TrimSpaceFront(x);
    assert ([" " + x] + rest)[1..] == rest;
    assert ([x] + rest)[1..] == rest;
  }

  /** Putting a field and ", " in front adds exactly that field before the text's own parts. */
  lemma FieldInFront(c: string, a: string)
    requires IsField(c)
    ensures Parts(c + ", " + a) == [c] + Parts(a)
  {
    assert c + ", " + a == c + [','] + (" " + a);
    SplitConcat(c, " " + a, ',');
    SplitWithoutSeparator(c, ',');
    PartsOfField(c);
    var s := Split(a, ',');
    SplitAfterSpace(a);
    TrimmedNonEmptyAppend([c], Split(" " + a, ','));
    TrimmedNonEmptySpaceFront(s[0], s[1..]);
    assert s == [s[0]] + s[1..];
  }

  /** Putting the country in front adds exactly one field, the country, before the input's own. */
  lemma CountryAddsOneField(a: string)
    ensures Parts(CountryPrefix + a) == [Country] + Parts(a)
  {
    assert IsField(Country);
    assert CountryPrefix + a == Country + ", " + a;
    FieldInFront(Country, a);
  }

  lemma {:induction false} JoinFields(parts: seq<string>)
    requires |parts| >= 1
    requires forall k :: 0 <= k < |parts| ==> IsField(parts[k])
    ensures IsField(Join(parts, " "))
    ensures Join(parts, " ")[0] == parts[0][0]
  {
    if |parts| > 1 {
      JoinFields(parts[1..]);
      var j := Join(parts, " ");
      var rest := Join(parts[1..], " ");
      assert j == parts[0] + " " + rest;
      assert j[|j| - 1] == rest[|rest| - 1];
      assert j[0] == parts[0][0];
    }
  }

  lemma StreetFieldIsField(street: string)
    requires IsField(street)
    ensures IsField(StreetPrefix + street)
  {
    var s := StreetPrefix + street;
    assert s[|s| - 1] == street[|street| - 1];
    assert s[0] == 'у';
  }

  lemma PartsOfNormalizedShape(city: string, street: string, house: string)
    requires IsField(city) && IsField(street) && IsField(house)
    ensures Parts(CountryPrefix + city + ", " + street + ", " + house) == [Country, city, street, house]
  {
    var a := CountryPrefix + city;
    var b := a + ", " + street;
    PartsAppendField(b, house);
    PartsAppendField(a, street);
    CountryAddsOneField(city);
    PartsOfField(city);
  }

  /** A normalized address of three or more fields splits back into the country, the
      city, the (typed) street and the house: four fields, in that order. */
  lemma NormalizedFields(address: string, lower: string -> string)
    requires |Parts(address)| >= 3
    ensures var parts := Parts(address);
            var street := if HasStreetType(lower(parts[1])) then parts[1] else StreetPrefix + parts[1];
            Parts(NormalizeAddress(address, lower)) == [Country, parts[0], street, Join(parts[2..], " ")]
  {
    var parts := Parts(address);
    PartsAreFields(address);
    var street := if HasStreetType(lower(parts[1])) then parts[1] else StreetPrefix + parts[1];
    if street != parts[1] { StreetFieldIsField(parts[1]); }
    JoinFields(parts[2..]);
    PartsOfNormalizedShape(parts[0], street, Join(parts[2..], " "));
  }

  /** With fewer than three fields the result is the input behind the country: one field more. */
  lemma ShortAddressFields(address: string, lower: string -> string)
    requires |Parts(address)| < 3
    ensures Parts(NormalizeAddress(address, lower)) == [Country] + Parts(address)
  {
    CountryAddsOneField(address);
  }

  lemma NotContainedForMissingChar(s: string, token: string, c: char)
    requires c in token && c !in s
    ensures !Contains(s, token)
  {
    ContainsIff(s, token);
    var k :| 0 <= k < |token| && token[k] == c;
    forall i ensures !OccursAt(s, token, i) {
      if 0 <= i && i + |token| <= |s| {
        assert s[i..i + |token|][k] == s[i + k];
      }
    }
  }

  lemma PartsOfThreeFields(a: string, b: string, c: string)
    requires IsField(a) && IsField(b) && IsField(c)
    ensures Parts(a + ", " + b + ", " + c) == [a, b, c]
  {
    PartsOfField(a);
    PartsAppendField(a, b);
    PartsAppendField(a + ", " + b, c);
  }

  lemma NoStreetTypeInTverskaya()
    ensures !HasStreetType("тверская")
  {
    var l := "тверская";
    forall k | 0 <= k < |StreetTypes| ensures !Contains(l, StreetTypes[k]) {
      var t := StreetTypes[k];
      var c := if k <= 1 then 'у' else if k <= 3 || 8 <= k <= 10 || k >= 12 then 'п'
               else if k <= 5 then 'ш' else if k <= 7 then 'б' else 'н';
      assert c == t[0];
      NotContainedForMissingChar(l, t, c);
    }
  }

  /** A three-field address whose street carries no type gains the country and "улица". */
  lemma NormalizeUntypedStreet(city: string, street: string, house: string, lower: string -> string)
    requires IsField(city) && IsField(street) && IsField(house)
    requires !HasStreetType(lower(street))
    ensures NormalizeAddress(city + ", " + street + ", " + house, lower)
            == CountryPrefix + city + ", " + StreetPrefix + street + ", " + house
  {
    PartsOfThreeFields(city, street, house);
    var parts := Parts(city + ", " + street + ", " + house);
    assert parts[0] == city && parts[1] == street;
    assert parts[2..] == [house];
    assert Join(parts[2..], " ") == house;
    assert CountryPrefix + city + ", " + (StreetPrefix + street) + ", " + house
        == CountryPrefix + city + ", " + StreetPrefix + street + ", " + house;
  }

  /** The worked example: "Москва, Тверская, 1" becomes "Россия, Москва, улица Тверская, 1". */
  lemma NormalizeExample(address: string, lower: string -> string)
    requires address == "Москва, Тверская, 1"
    requires lower("Тверская") == "тверская"
    ensures NormalizeAddress(address, lower) == "Россия, Москва, улица Тверская, 1"
  {
    var city, street, house := "Москва", "Тверская", "1";
    assert IsField(city) && IsField(street) && IsField(house);
    NoStreetTypeInTverskaya();
    assert address == city + ", " + street + ", " + house;
    assert CountryPrefix + city == "Россия, Москва";
    assert "Россия, Москва" + ", " == "Россия, Москва, ";
    assert "Россия, Москва, " + StreetPrefix == "Россия, Москва, улица ";
    assert "Россия, Москва, улица " + street == "Россия, Москва, улица Тверская";
    assert "Россия, Москва, улица Тверская" + ", " == "Россия, Москва, улица Тверская, ";
    assert "Россия, Москва, улица Тверская, " + house == "Россия, Москва, улица Тверская, 1";
    NormalizeUntypedStreet(city, street, house, lower);
  }

  // ---------------------------------------------------------------- query variants

  /** The five candidate queries of buildAddressVariants, in their fixed order. */
  function AddressCandidates(address: string, lower: string -> string): seq<string> {
    var original := Trim(address);
    var parts := Parts(original);
    var cityStreet := if |parts| >= 2 then parts[0] + ", " + parts[1] else original;
    var cityOnly := if |parts| >= 1 then parts[0] else original;
    [original, NormalizeAddress(original, lower), NormalizeAddress(cityStreet, lower),
     NormalizeAddress(cityOnly, lower), CountryPrefix + original]
  }

  /** The filtering step of buildAddressVariants: a candidate is kept when its lower-cased
      form is not yet in the `seen` set, and its lower-cased form is then added to it. */
  method KeepUnseen(candidates: seq<string>, lower: string -> string) returns (variants: seq<string>)
    ensures variants == DedupBy(candidates, lower)
  {
    var seen: set<string> := {};
    variants := [];
    for i := 0 to |candidates|
      invariant seen == KeySet(candidates[..i], lower)
      invariant variants == DedupBy(candidates[..i], lower)
    {
      var key := lower(candidates[i]);
      assert candidates[..i + 1] == candidates[..i] + [candidates[i]];
      assert candidates[..i + 1][..i] == candidates[..i];
      KeySetSnoc(candidates[..i], lower, candidates[i]);
      if key !in seen {
        variants := variants + [candidates[i]];
      }
      seen := seen + {key};
    }
    assert candidates[..|candidates|] == candidates;
  }

  /** buildAddressVariants: the five candidates, each kept only when no earlier kept one has
      the same lower-cased form. */
  method BuildAddressVariants(address: string, lower: string -> string) returns (variants: seq<string>)
    ensures variants == DedupBy(AddressCandidates(address, lower), lower)
    ensures 1 <= |variants| <= 5
    ensures variants[0] == Trim(address)
    ensures forall i, j :: 0 <= i < j < |variants| ==> lower(variants[i]) != lower(variants[j])
    ensures IsSubsequence(variants, AddressCandidates(address, lower))
  {
    var candidates := AddressCandidates(address, lower);
    variants := KeepUnseen(candidates, lower);
    DedupLength(candidates, lower);
    DedupKeepsHead(candidates, lower);
    DedupKeysDistinct(candidates, lower);
    DedupSubsequence(candidates, lower);
  }
}
