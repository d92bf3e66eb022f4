/** The structured data of the rental page (src/pages/LocationPage.jsx):
    one schema.org Product per rental bike, with a SKU made from the bike's
    name and a price read out of the bike's price text. The bikes come from
    the translation table of the current language and are given as a
    parameter, as a list of entries in their object order. */
module Location {
  import opened Wrappers
  import opened Text
  import opened Seqs

  // ---------------------------------------------------------------------
  // parsePrice

  predicate NoDigit(s: string)
  {
    forall i :: 0 <= i < |s| ==> !IsDigit(s[i])
  }

  /** `s.replace(c, d)` with a string pattern: only the first `c` becomes
      `d` (ReplaceFirstAbsent and ReplaceFirstAt state it). */
  function ReplaceFirst(s: string, c: char, d: char): (r: string)
    ensures |r| == |s|
    ensures forall k :: 0 <= k < |s| ==> r[k] == s[k] || (s[k] == c && r[k] == d)
  {
    if s == [] then []
    else if s[0] == c then [d] + s[1..]
    else [s[0]] + ReplaceFirst(s[1..], c, d)
  }

  /** Index of the first digit, if any. */
  function FirstDigit(s: string): (r: Option<nat>)
    ensures r.None? <==> NoDigit(s)
    ensures r.Some? ==> r.value < |s| && IsDigit(s[r.value]) && NoDigit(s[..r.value])
  {
    if s == [] then None
    else if IsDigit(s[0]) then Some(0)
    else match FirstDigit(s[1..])
      case None => None
      case Some(i) =>
        assert s[..i + 1] == [s[0]] + s[1..][..i];
        Some(i + 1)
  }

  /** A decimal numeral: digits, and at most one dot, which has digits on
      both sides. */
  predicate IsDecimal(m: string)
  {
    && |m| > 0 && IsDigit(m[0]) && IsDigit(m[|m| - 1])
    && (forall i :: 0 <= i < |m| ==> IsDigit(m[i]) || m[i] == '.')
    && (forall i, j :: 0 <= i < j < |m| && m[i] == '.' ==> m[j] != '.')
  }

  /** The match of `[0-9]+(?:\.[0-9]+)?` that starts at the beginning of
      `t`: all the leading digits, then a dot and all the digits after it
      when a digit follows the dot. */
  function NumberAt(t: string): (m: string)
    requires t != [] && IsDigit(t[0])
    ensures IsDecimal(m) && StartsWith(t, m)
    ensures |m| < |t| ==> !IsDigit(t[|m|])
    ensures '.' !in m ==> !(|m| + 1 < |t| && t[|m|] == '.' && IsDigit(t[|m| + 1]))
  {
    var d := LeadingDigits(t);
    var after := t[|d|..];
    if |after| >= 2 && after[0] == '.' && IsDigit(after[1]) then
      var e := LeadingDigits(after[1..]);
      DecimalMatch(t, d, e);
      d + "." + e
    else
      WholeMatch(t, d);
      d
  }

  /** The facts of NumberAt for digits, a dot and digits. */
  lemma DecimalMatch(t: string, d: string, e: string)
    requires d != [] && AllDigits(d) && StartsWith(t, d)
    requires |d| + 1 < |t| && t[|d|] == '.'
    requires e != [] && AllDigits(e) && StartsWith(t[|d| + 1..], e)
    requires |d| + 1 + |e| < |t| ==> !IsDigit(t[|d| + 1 + |e|])
    ensures var m := d + "." + e;
      IsDecimal(m) && StartsWith(t, m) && '.' in m && (|m| < |t| ==> !IsDigit(t[|m|]))
  {
    var m := d + "." + e;
    assert m[|d|] == '.';
    assert forall i :: |d| < i < |m| ==> m[i] == e[i - |d| - 1];
    assert forall i :: 0 <= i < |d| ==> m[i] == d[i];
    assert t[..|m|] == m by {
      assert t[..|d|] == d;
      assert t[|d| + 1..][..|e|] == e;
      assert t[..|m|] == t[..|d|] + [t[|d|]] + t[|d| + 1..][..|e|];
    }
  }

  /** The facts of NumberAt for digits alone. */
  lemma WholeMatch(t: string, d: string)
    requires d != [] && AllDigits(d) && StartsWith(t, d)
    requires |d| < |t| ==> !IsDigit(t[|d|])
    ensures IsDecimal(d) && '.' !in d
  {
    DigitsLack(d, '.');
  }

  /** `parsePrice`: the absent value (null or undefined) reads as the empty
      text; the first comma becomes a dot; the first decimal numeral in
      it is the price, and "0" when there is none. */
  function ParsePrice(value: Option<string>): (r: string)
    ensures IsDecimal(r)
  {
    var normalized := ReplaceFirst(value.GetOr(""), ',', '.');
    match FirstDigit(normalized)
    case None => assert IsDecimal("0") by { assert "0"[0] == '0'; } "0"
    case Some(i) => NumberAt(normalized[i..])
  }

  /** A price text without digits, or no text, gives "0". */
  lemma ParsePriceWithoutDigits(value: Option<string>)
    requires value.Some? ==> NoDigit(value.value)
    ensures ParsePrice(value) == "0"
  {
    var s := value.GetOr("");
    var n := ReplaceFirst(s, ',', '.');
    ReplacementMakesNoDigit(s, 0, |s|);
    assert n[0..|s|] == n && s[0..|s|] == s;
  }

  /** The comma replacement before the first comma leaves the text alone. */
  lemma {:induction false} ReplaceFirstAbsent(s: string, c: char, d: char)
    requires c !in s
    ensures ReplaceFirst(s, c, d) == s
    decreases |s|
  {
    if s != [] {
      assert s == [s[0]] + s[1..];
      ReplaceFirstAbsent(s[1..], c, d);
    }
  }

  /** Only the first comma is replaced. */
  lemma {:induction false} ReplaceFirstAt(pre: string, post: string, c: char, d: char)
    requires c !in pre
    ensures ReplaceFirst(pre + [c] + post, c, d) == pre + [d] + post
    decreases |pre|
  {
    var s := pre + [c] + post;
    if pre == [] {
      assert s == [c] + post;
    } else {
      assert s[0] == pre[0] && s[1..] == pre[1..] + [c] + post;
      ReplaceFirstAt(pre[1..], post, c, d);
      assert pre + [d] + post == [pre[0]] + (pre[1..] + [d] + post);
    }
  }

  /** The first digit of a text is after a digit-free prefix. */
  lemma FirstDigitAfter(pre: string, t: string)
    requires NoDigit(pre) && t != [] && IsDigit(t[0])
    ensures FirstDigit(pre + t) == Some(|pre|)
    ensures (pre + t)[|pre|..] == t
  {
    var s := pre + t;
    assert s[..|pre|] == pre;
    assert s[|pre|] == t[0];
  }

  /** A numeral without a dot, followed by no digit, is matched whole. */
  lemma NumberAtOfDigits(digits: string, post: string)
    requires digits != [] && AllDigits(digits) && NoDigit(post)
    ensures NumberAt(digits + post) == digits
  {
    var t := digits + post;
    LeadingDigitsOf(digits, post);
    assert t[|digits|..] == post;
  }

  /** A numeral with a dot, followed by no digit, is matched whole. */
  lemma NumberAtOfDecimal(a: string, b: string, post: string)
    requires a != [] && AllDigits(a) && b != [] && AllDigits(b)
    requires post != [] ==> !IsDigit(post[0])
    ensures NumberAt(a + "." + b + post) == a + "." + b
  {
    var t := a + "." + b + post;
    var rest := "." + b + post;
    assert t == a + rest;
    assert rest[0] == '.';
    LeadingDigitsOf(a, rest);
    assert t[|a|..] == rest;
    assert rest[1..] == b + post;
    LeadingDigitsOf(b, post);
  }

  /** A whole number among characters that are not digits is the price,
      wherever the currency symbol and any words stand: "10€", "€10" and
      "From €10" all give "10". */
  lemma ParsePriceOfWholeNumber(pre: string, digits: string, post: string)
    requires NoDigit(pre) && NoDigit(post)
    requires digits != [] && AllDigits(digits)
    ensures ParsePrice(Some(pre + digits + post)) == digits
  {
    var s := pre + digits + post;
    var n := ReplaceFirst(s, ',', '.');
    var i, j := |pre|, |pre| + |digits|;
    var p, q := n[..i], n[j..];
    assert s[..i] == pre && s[i..j] == digits && s[j..] == post;
    assert s[j..] == s[j..|s|];
    ReplacementKeepsDigits(s, i, j);
    ReplacementMakesNoDigit(s, 0, i);
    ReplacementMakesNoDigit(s, j, |s|);
    assert n[..i] == n[0..i] && n[j..] == n[j..|s|];
    assert n == p + (digits + q) by {
      assert n == n[..i] + n[i..j] + n[j..];
    }
    FirstDigitAfter(p, digits + q);
    NumberAtOfDigits(digits, q);
  }

  /** The comma replacement changes no digit: a stretch of digits is
      still there. */
  lemma ReplacementKeepsDigits(s: string, i: nat, j: nat)
    requires i <= j <= |s| && AllDigits(s[i..j])
    ensures ReplaceFirst(s, ',', '.')[i..j] == s[i..j]
  {
    var n := ReplaceFirst(s, ',', '.');
    forall k | i <= k < j ensures n[k] == s[k] {
      assert IsDigit(s[i..j][k - i]);
    }
  }

  /** The comma replacement makes no digit: a stretch without digits stays
      without. */
  lemma ReplacementMakesNoDigit(s: string, i: nat, j: nat)
    requires i <= j <= |s| && NoDigit(s[i..j])
    ensures NoDigit(ReplaceFirst(s, ',', '.')[i..j])
  {
    var n := ReplaceFirst(s, ',', '.');
    forall k | i <= k < j ensures !IsDigit(n[k]) {
      assert !IsDigit(s[i..j][k - i]);
    }
  }

  /** A decimal comma reads as a dot: "12,50€" gives "12.50"; what follows
      the decimals does not matter once a non-digit ends them. */
  lemma ParsePriceDecimalComma(pre: string, a: string, b: string, post: string)
    requires NoDigit(pre) && ',' !in pre && (post != [] ==> !IsDigit(post[0]))
    requires a != [] && AllDigits(a) && b != [] && AllDigits(b)
    ensures ParsePrice(Some(pre + a + "," + b + post)) == a + "." + b
  {
    DigitsLack(a, ',');
    assert ',' !in pre + a;
    DecimalCommaShapes(pre, a, b, post);
    ReplaceFirstAt(pre + a, b + post, ',', '.');
    assert (a + "." + b + post)[0] == a[0];
    FirstDigitAfter(pre, a + "." + b + post);
    NumberAtOfDecimal(a, b, post);
  }

  /** The two ways of cutting the text around its comma and its dot. */
  lemma DecimalCommaShapes(pre: string, a: string, b: string, post: string)
    ensures pre + a + "," + b + post == (pre + a) + [','] + (b + post)
    ensures (pre + a) + ['.'] + (b + post) == pre + (a + "." + b + post)
  {
    AppendAssociative(pre + a + ",", b, post);
    AppendAssociative(pre, a, "." + b + post);
    AppendAssociative(a, ".", b + post);
    AppendAssociative(a + ".", b, post);
    AppendAssociative(pre + a, ".", b + post);
  }

  /** Only the first comma is read as a decimal point: "1,000,50" gives
      "1.000". */
  lemma ParsePriceSecondComma(a: string, b: string, c: string)
    requires a != [] && AllDigits(a) && b != [] && AllDigits(b) && AllDigits(c)
    ensures ParsePrice(Some(a + "," + b + "," + c)) == a + "." + b
  {
    var post := "," + c;
    ParsePriceDecimalComma([], a, b, post);
    assert [] + a == a;
    AppendAssociative(a + "," + b, ",", c);
  }

  // ---------------------------------------------------------------------
  // The SKU

  /** `s.replace(/\s+/g, sep)` for the class `p`: every maximal run of `p`
      characters becomes one `sep`. */
  function ReplaceRuns(s: string, p: char -> bool, sep: char): (r: string)
    ensures |r| <= |s|
    ensures forall i :: 0 <= i < |r| ==> r[i] == sep || (r[i] in s && !p(r[i]))
    decreases |s|
  {
    if s == [] then []
    else if p(s[0]) then [sep] + ReplaceRuns(TrimStart(s[1..], p), p, sep)
    else [s[0]] + ReplaceRuns(s[1..], p, sep)
  }

  /** Dropping the leading run of a text that ends outside the class drops
      it from any continuation of that text too. */
  lemma {:induction false} TrimStartAppend(x: string, t: string, p: char -> bool)
    requires x != [] && !p(x[|x| - 1])
    ensures TrimStart(x + t, p) == TrimStart(x, p) + t
    ensures TrimStart(x, p) != [] && TrimStart(x, p)[|TrimStart(x, p)| - 1] == x[|x| - 1]
    decreases |x|
  {
    assert (x + t)[0] == x[0];
    if p(x[0]) {
      assert |x| > 1;
      assert (x + t)[1..] == x[1..] + t;
      TrimStartAppend(x[1..], t, p);
    }
  }

  /** Runs do not extend across a character outside the class. */
  lemma {:induction false} ReplaceRunsAppend(a: string, t: string, p: char -> bool, sep: char)
    requires a == [] || !p(a[|a| - 1])
    ensures ReplaceRuns(a + t, p, sep) == ReplaceRuns(a, p, sep) + ReplaceRuns(t, p, sep)
    decreases |a|
  {
    if a == [] {
      assert a + t == t;
    } else {
      assert (a + t)[0] == a[0];
      assert (a + t)[1..] == a[1..] + t;
      if p(a[0]) {
        assert |a| > 1;
        TrimStartAppend(a[1..], t, p);
        ReplaceRunsAppend(TrimStart(a[1..], p), t, p, sep);
      } else {
        ReplaceRunsAppend(a[1..], t, p, sep);
      }
    }
  }

  /** A run followed by a character outside the class becomes one `sep`. */
  lemma ReplaceRunsOfRun(w: string, b: string, p: char -> bool, sep: char)
    requires w != [] && forall i :: 0 <= i < |w| ==> p(w[i])
    requires b != [] ==> !p(b[0])
    ensures ReplaceRuns(w + b, p, sep) == [sep] + ReplaceRuns(b, p, sep)
  {
    assert (w + b)[0] == w[0];
    assert (w + b)[1..] == w[1..] + b;
    TrimStartPrefix(w[1..], b, p);
  }

  /** A text without characters of the class is kept as it is. */
  lemma {:induction false} ReplaceRunsOfClean(s: string, p: char -> bool, sep: char)
    requires forall i :: 0 <= i < |s| ==> !p(s[i])
    ensures ReplaceRuns(s, p, sep) == s
    decreases |s|
  {
    if s != [] {
      ReplaceRunsOfClean(s[1..], p, sep);
    }
  }

  /** `bike.name.toLowerCase().replace(/\s+/g, "-")`. */
  function Sku(name: string): (sku: string)
    ensures forall i :: 0 <= i < |sku| ==> !IsJsSpace(sku[i])
    ensures forall i :: 0 <= i < |sku| ==> LowerLatin1Char(sku[i]) == sku[i]
  {
    var lowered := LowerLatin1(name);
    var r := ReplaceRuns(lowered, IsJsSpace, '-');
    assert forall i :: 0 <= i < |r| ==> LowerLatin1Char(r[i]) == r[i] by {
      forall i | 0 <= i < |r| ensures LowerLatin1Char(r[i]) == r[i] {
        if r[i] != '-' {
          var k :| 0 <= k < |lowered| && lowered[k] == r[i];
          LowerLatin1CharFacts(name[k]);
        }
      }
    }
    r
  }

  /** Lower-casing a concatenation lower-cases the parts. */
  lemma LowerLatin1Append(a: string, w: string, b: string)
    ensures LowerLatin1(a + w + b) == LowerLatin1(a) + (LowerLatin1(w) + LowerLatin1(b))
  {
    assert forall i :: 0 <= i < |a + w + b| ==>
      LowerLatin1(a + w + b)[i] == (LowerLatin1(a) + (LowerLatin1(w) + LowerLatin1(b)))[i];
  }

  /** Words separated by white space are joined by exactly one "-",
      however long the white space: "VTT  Électrique" gives
      "vtt-électrique". */
  lemma SkuOfWords(a: string, w: string, b: string)
    requires a != [] && !IsJsSpace(a[|a| - 1])
    requires w != [] && forall i :: 0 <= i < |w| ==> IsJsSpace(w[i])
    requires b != [] ==> !IsJsSpace(b[0])
    ensures Sku(a + w + b) == Sku(a) + "-" + Sku(b)
  {
    LoweredSpacedWords(a, w, b);
    var la, lw, lb := LowerLatin1(a), LowerLatin1(w), LowerLatin1(b);
    RunsBetweenWords(la, lw, lb, IsJsSpace, '-');
    var x, y := ReplaceRuns(la, IsJsSpace, '-'), ReplaceRuns(lb, IsJsSpace, '-');
    AppendAssociative(x, "-", y);
  }

  lemma LoweredSpacedWords(a: string, w: string, b: string)
    requires a != [] && !IsJsSpace(a[|a| - 1])
    requires w != [] && forall i :: 0 <= i < |w| ==> IsJsSpace(w[i])
    requires b != [] ==> !IsJsSpace(b[0])
    ensures var la, lw, lb := LowerLatin1(a), LowerLatin1(w), LowerLatin1(b);
      && Sku(a + w + b) == ReplaceRuns(la + (lw + lb), IsJsSpace, '-')
      && la != [] && !IsJsSpace(la[|la| - 1])
      && lw != [] && (forall i :: 0 <= i < |lw| ==> IsJsSpace(lw[i]))
      && (lb != [] ==> !IsJsSpace(lb[0]))
  {
    forall c: char ensures IsJsSpace(LowerLatin1Char(c)) <==> IsJsSpace(c) {
      LowerLatin1CharFacts(c);
    }
    LoweredWords(a, w, b, IsJsSpace);
  }

  /** Lower-casing keeps the words and the runs of class `p` between them,
      for a class that lower-casing respects. */
  lemma LoweredWords(a: string, w: string, b: string, p: char -> bool)
    requires forall c :: p(LowerLatin1Char(c)) <==> p(c)
    requires a != [] && !p(a[|a| - 1])
    requires w != [] && forall i :: 0 <= i < |w| ==> p(w[i])
    requires b != [] ==> !p(b[0])
    ensures var la, lw, lb := LowerLatin1(a), LowerLatin1(w), LowerLatin1(b);
      && LowerLatin1(a + w + b) == la + (lw + lb)
      && la != [] && !p(la[|la| - 1])
      && lw != [] && (forall i :: 0 <= i < |lw| ==> p(lw[i]))
      && (lb != [] ==> !p(lb[0]))
  {
    LowerLatin1Append(a, w, b);
  }

  /** A run between two words becomes one `sep`. */
  lemma RunsBetweenWords(x: string, w: string, y: string, p: char -> bool, sep: char)
    requires x != [] && !p(x[|x| - 1])
    requires w != [] && forall i :: 0 <= i < |w| ==> p(w[i])
    requires y != [] ==> !p(y[0])
    ensures ReplaceRuns(x + (w + y), p, sep) == ReplaceRuns(x, p, sep) + ([sep] + ReplaceRuns(y, p, sep))
  {
    ReplaceRunsAppend(x, w + y, p, sep);
    ReplaceRunsOfRun(w, y, p, sep);
  }

  /** A name without white space only gets lower-cased. */
  lemma SkuOfOneWord(name: string)
    requires forall i :: 0 <= i < |name| ==> !IsJsSpace(name[i])
    ensures Sku(name) == LowerLatin1(name)
  {
    var lowered := LowerLatin1(name);
    forall i | 0 <= i < |lowered| ensures !IsJsSpace(lowered[i]) {
      LowerLatin1CharFacts(name[i]);
    }
    ReplaceRunsOfClean(lowered, IsJsSpace, '-');
  }

  /** A SKU is its own SKU. */
  lemma SkuIdempotent(name: string)
    ensures Sku(Sku(name)) == Sku(name)
  {
    var s := Sku(name);
    SkuOfOneWord(s);
    assert LowerLatin1(s) == s;
  }

  // ---------------------------------------------------------------------
  // The product graph

  /** A rental bike of the translation table: its name, its feature list
      if it has one, and its price text if it has one. */
  datatype Bike = Bike(name: string, features: Option<seq<string>>, price: Option<string>)

  /** The fields of a Product node that depend on the bike or the
      language. */
  datatype Product = Product(
    name: string,
    image: Option<string>,
    description: Option<string>,
    category: string,
    sku: string,
    url: string,
    price: string)

  /** The photo of each bike kind; other keys have none. */
  const BikeImages: map<string, string> := map[
    "child" := "https://images.pexels.com/photos/14576823/pexels-photo-14576823.jpeg?auto=compress&cs=tinysrgb&w=400&h=300&fit=crop",
    "vtc" := "https://images.pexels.com/photos/2224696/pexels-photo-2224696.jpeg?auto=compress&cs=tinysrgb&w=400&h=300&fit=crop",
    "mtb" := "https://images.pexels.com/photos/16066068/pexels-photo-16066068.jpeg?auto=compress&cs=tinysrgb&w=400&h=300&fit=crop",
    "electric" := "https://images.pexels.com/photos/13633045/pexels-photo-13633045.jpeg?auto=compress&cs=tinysrgb&w=400&h=300&fit=crop",
    "electricMtb" := "https://images.pexels.com/photos/27368838/pexels-photo-27368838.jpeg?auto=compress&cs=tinysrgb&w=400&h=300&fit=crop",
    "tandem" := "https://images.pexels.com/photos/17169173/pexels-photo-17169173.jpeg?auto=compress&cs=tinysrgb&w=400&h=300&fit=crop"
  ]

  /** The offer URL of the page in the language. */
  function BaseUrl(language: string): string
  {
    if language == "en" then "https://www.artimonbike.com/en/location" else "https://www.artimonbike.com/location"
  }

  /** The product category in the language. */
  function Category(language: string): string
  {
    if language == "en" then "Bike rental" else "Location de vélo"
  }

  /** The Product node of one bike entry. */
  function ProductOf(key: string, bike: Bike, language: string): (p: Product)
    ensures p.name == bike.name && p.sku == Sku(bike.name)
    ensures p.price == ParsePrice(bike.price) && IsDecimal(p.price)
    ensures p.url == BaseUrl(language)
    ensures p.image.Some? <==> key in BikeImages
    ensures p.description.Some? <==> bike.features.Some?
    ensures bike.features.Some? ==> p.description == Some(Join(bike.features.value, ", "))
    ensures p.category == Category(language)
  {
    Product(
      bike.name,
      Get(BikeImages, key),
      if bike.features.Some? then Some(Join(bike.features.value, ", ")) else None,
      Category(language),
      Sku(bike.name),
      BaseUrl(language),
      ParsePrice(bike.price))
  }

  /** `bikes.map(...)` over `Object.entries(t.rentalPage.bikes)`: one
      Product per entry, in entry order, each named after its bike, with
      the bike's SKU and parsed price. */
  function ProductGraph(bikes: seq<(string, Bike)>, language: string): (graph: seq<Product>)
    ensures |graph| == |bikes|
    ensures forall i :: 0 <= i < |bikes| ==>
      && graph[i].name == bikes[i].1.name
      && graph[i].sku == Sku(bikes[i].1.name)
      && graph[i].price == ParsePrice(bikes[i].1.price)
      && IsDecimal(graph[i].price)
      && graph[i].url == BaseUrl(language)
      && (graph[i].image.Some? <==> bikes[i].0 in BikeImages)
      && graph[i].category == Category(language)
      && (graph[i].description.Some? <==> bikes[i].1.features.Some?)
      && (bikes[i].1.features.Some? ==> graph[i].description == Some(Join(bikes[i].1.features.value, ", ")))
  {
    seq(|bikes|, i requires 0 <= i < |bikes| => ProductOf(bikes[i].0, bikes[i].1, language))
  }

  /** The graph of a list of entries followed by one more entry. */
  lemma ProductGraphSnoc(bikes: seq<(string, Bike)>, entry: (string, Bike), language: string)
    ensures ProductGraph(bikes + [entry], language) ==
      ProductGraph(bikes, language) + [ProductOf(entry.0, entry.1, language)]
  {
  }
}
