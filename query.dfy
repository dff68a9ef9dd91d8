/** The price bounds of the nearby-search query. The stored price setting is
    a comma-joined string such as "2,3"; the query takes its elements at
    indices 0 and 2 as they are, without splitting or parsing it. A
    JavaScript string is a sequence of UTF-16 code units and indexing counts
    code units, so the setting is modelled as the UTF-16 encoding of its
    text. */
module Query {

  /** One UTF-16 code unit. */
  type CodeUnit = x: int | 0 <= x < 0x1_0000

  /** The price setting used when none is stored. */
  const DefaultPrice: string := "2,3"

  /** A character of the Basic Multilingual Plane: one code unit in UTF-16. */
  predicate InBmp(c: char)
  {
    c as int < 0x1_0000
  }

  /** A high (leading) surrogate code unit. */
  predicate IsHighSurrogate(u: CodeUnit)
  {
    0xD800 <= u < 0xDC00
  }

  /** The UTF-16 encoding of one character: itself inside the Basic
      Multilingual Plane, a surrogate pair outside it. */
  function EncodeChar(c: char): (units: seq<CodeUnit>)
    ensures InBmp(c) ==> units == [c as int]
    ensures !InBmp(c) ==> |units| == 2 && IsHighSurrogate(units[0]) && 0xDC00 <= units[1] < 0xE000
  {
    if InBmp(c) then [c as int]
    else
      var w := c as int - 0x1_0000;
      [0xD800 + w / 0x400, 0xDC00 + w % 0x400]
  }

  /** The UTF-16 encoding of a text. */
  function Utf16(s: string): seq<CodeUnit>
  {
    if s == [] then [] else EncodeChar(s[0]) + Utf16(s[1..])
  }

  /** On text of the Basic Multilingual Plane, code unit `i` is character `i`. */
  lemma {:induction false} Utf16Bmp(s: string)
    requires forall i :: 0 <= i < |s| ==> InBmp(s[i])
    ensures |Utf16(s)| == |s|
    ensures forall i :: 0 <= i < |s| ==> Utf16(s)[i] == s[i] as int
  {
    if s != [] {
      Utf16Bmp(s[1..]);
      assert forall i :: 1 <= i < |s| ==> s[1..][i - 1] == s[i];
    }
  }

  /** The text "undefined" in code units: what a template literal writes for
      an index past the end of a string. */
  const Undefined: seq<CodeUnit> := [0x75, 0x6E, 0x64, 0x65, 0x66, 0x69, 0x6E, 0x65, 0x64]

  /** What indexing a string contributes to the query text: the one code
      unit, or the word "undefined" when the index is past the end. */
  function UnitOrUndefined(s: seq<CodeUnit>, i: nat): (r: seq<CodeUnit>)
    ensures i < |s| ==> r == [s[i]]
    ensures i >= |s| ==> r == Undefined
  {
    if i < |s| then [s[i]] else Undefined
  }

  /** The `minprice` query value: code unit 0 of the setting. */
  function MinPrice(price: seq<CodeUnit>): (r: seq<CodeUnit>)
    ensures |price| >= 1 ==> r == price[..1]
    ensures |price| == 0 ==> r == Undefined
  {
    UnitOrUndefined(price, 0)
  }

  /** The `maxprice` query value: code unit 2 of the setting. */
  function MaxPrice(price: seq<CodeUnit>): (r: seq<CodeUnit>)
    ensures |price| >= 3 ==> r == price[2..3]
    ensures |price| < 3 ==> r == Undefined
  {
    UnitOrUndefined(price, 2)
  }

  /** Encoding a concatenation concatenates the encodings. */
  lemma {:induction false} Utf16Append(a: string, b: string)
    ensures Utf16(a + b) == Utf16(a) + Utf16(b)
  {
    if a == [] {
      assert a + b == b;
    } else {
      assert (a + b)[0] == a[0] && (a + b)[1..] == a[1..] + b;
      Utf16Append(a[1..], b);
      calc {
        Utf16(a + b);
        EncodeChar(a[0]) + Utf16(a[1..] + b);
        EncodeChar(a[0]) + (Utf16(a[1..]) + Utf16(b));
        (EncodeChar(a[0]) + Utf16(a[1..])) + Utf16(b);
        Utf16(a) + Utf16(b);
      }
    }
  }

  /** The encoding of a single character of the Basic Multilingual Plane. */
  lemma Utf16Single(c: char)
    requires InBmp(c)
    ensures Utf16([c]) == [c as int]
  {
    assert [c][1..] == [];
  }

  /** On a setting of the Basic Multilingual Plane, `minprice` is its
      character 0 ... */
  lemma BmpMinPrice(price: string)
    requires forall i :: 0 <= i < |price| ==> InBmp(price[i])
    requires |price| >= 1
    ensures MinPrice(Utf16(price)) == Utf16(price[..1])
  {
    var units := Utf16(price);
    Utf16Bmp(price);
    assert price[..1] == [price[0]];
    Utf16Single(price[0]);
    assert units[..1] == [units[0]];
  }

  /** ... and `maxprice` its character 2, or "undefined" when it is shorter. */
  lemma BmpMaxPrice(price: string)
    requires forall i :: 0 <= i < |price| ==> InBmp(price[i])
    ensures |price| >= 3 ==> MaxPrice(Utf16(price)) == Utf16(price[2..3])
    ensures |price| < 3 ==> MaxPrice(Utf16(price)) == Undefined
  {
    if |price| >= 3 {
      var c := price[2];
      Utf16Single(c);
      assert price[2..3] == [c];
      Utf16Bmp(price);
      assert Utf16(price)[2] == c as int;
    } else {
      Utf16Bmp(price);
    }
  }

  /** A "min,max" setting of two one-character levels. */
  function PricePair(lo: char, hi: char): (s: string)
  {
    [lo, ',', hi]
  }

  /** A two-level setting gives back its two levels as the bounds. */
  lemma PricePairBounds(lo: char, hi: char)
    requires InBmp(lo) && InBmp(hi)
    ensures MinPrice(Utf16(PricePair(lo, hi))) == Utf16([lo])
    ensures MaxPrice(Utf16(PricePair(lo, hi))) == Utf16([hi])
  {
    BmpMinPrice(PricePair(lo, hi));
    BmpMaxPrice(PricePair(lo, hi));
    assert PricePair(lo, hi)[..1] == [lo] && PricePair(lo, hi)[2..3] == [hi];
  }

  /** The default setting queries prices 2 to 3. */
  lemma DefaultPriceBounds()
    ensures MinPrice(Utf16(DefaultPrice)) == Utf16("2")
    ensures MaxPrice(Utf16(DefaultPrice)) == Utf16("3")
  {
    PricePairBounds('2', '3');
  }

  /** With three or more one-character levels, the upper bound is the second
      level, not the last one: "1,2,4" queries 1 to 2. */
  lemma MaxPriceIsSecondLevel(lo: char, mid: char, rest: string)
    requires InBmp(lo) && InBmp(mid)
    ensures MinPrice(Utf16([lo, ',', mid] + rest)) == Utf16([lo])
    ensures MaxPrice(Utf16([lo, ',', mid] + rest)) == Utf16([mid])
  {
    var head := [lo, ',', mid];
    Utf16Append(head, rest);
    Utf16Bmp(head);
    Utf16Single(lo);
    Utf16Single(mid);
  }

  lemma ThreeLevelExample()
    ensures MinPrice(Utf16("1,2,4")) == Utf16("1") && MaxPrice(Utf16("1,2,4")) == Utf16("2")
  {
    MaxPriceIsSecondLevel('1', '2', ",4");
  }

  /** A setting too short for index 2 puts "undefined" into the query. */
  lemma ShortSettingExample()
    ensures MinPrice(Utf16("2")) == Utf16("2")
    ensures MaxPrice(Utf16("2")) == Undefined
  {
    BmpMinPrice("2");
    BmpMaxPrice("2");
  }

  /** A first level outside the Basic Multilingual Plane is two code units:
      `minprice` is its lone high surrogate and `maxprice` is the comma. */
  lemma AstralLevelSplits(lo: char, hi: char)
    requires !InBmp(lo)
    ensures |MinPrice(Utf16(PricePair(lo, hi)))| == 1
    ensures IsHighSurrogate(MinPrice(Utf16(PricePair(lo, hi)))[0])
    ensures MaxPrice(Utf16(PricePair(lo, hi))) == Utf16(",")
  {
    var s := PricePair(lo, hi);
    Utf16Append([lo], [',', hi]);
    assert [lo][1..] == [];
    assert s == [lo] + [',', hi];
  }
}
