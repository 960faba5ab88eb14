/** The location card of the listing grid: a background gradient picked by a
    hash of the location type, and an icon picked by keywords in the type. */
module LocationCard {
  import Text
  import Catalog

  datatype Gradient = Purple | Blue | Green | Pink | Indigo | Teal

  /** The gradients in the order the card lists them. */
  const Gradients: seq<Gradient> := [Purple, Blue, Green, Pink, Indigo, Teal]

  /** The UTF-16 code units of one character: the character itself below
      U+10000, otherwise its high and low surrogate. */
  function CodeUnits(c: char): (units: seq<int>)
    ensures 1 <= |units| <= 2
    ensures |units| == 1 <==> (c as int) < 0x1_0000
    ensures |units| == 1 ==> units[0] == c as int
    ensures forall k :: 0 <= k < |units| ==> 0 <= units[k] < 0x1_0000
  {
    if (c as int) < 0x1_0000 then [c as int]
    else
      var v := c as int - 0x1_0000;
      [0xD800 + v / 0x400, 0xDC00 + v % 0x400]
  }

  /** `type.split('')`, read through `charCodeAt(0)`: the code units of the
      text, in order. */
  function Utf16(s: string): seq<int>
  {
    if s == [] then [] else CodeUnits(s[0]) + Utf16(s[1..])
  }

  /** The sum of a sequence of numbers, added up from the right. */
  function Total(xs: seq<int>): int
  {
    if xs == [] then 0 else xs[0] + Total(xs[1..])
  }

  /** `reduce((acc, unit) => acc + unit, acc)`: the sum added up from the left. */
  function Reduce(acc: int, xs: seq<int>): int
    decreases |xs|
  {
    if xs == [] then acc else Reduce(acc + xs[0], xs[1..])
  }

  /** The left fold the card computes is the plain sum. */
  lemma {:induction false} ReduceIsTotal(acc: int, xs: seq<int>)
    ensures Reduce(acc, xs) == acc + Total(xs)
    decreases |xs|
  {
    if xs != [] {
      ReduceIsTotal(acc + xs[0], xs[1..]);
    }
  }

  lemma {:induction false} TotalAppend(xs: seq<int>, ys: seq<int>)
    ensures Total(xs + ys) == Total(xs) + Total(ys)
  {
    if xs == [] {
      assert xs + ys == ys;
    } else {
      assert (xs + ys)[0] == xs[0];
      assert (xs + ys)[1..] == xs[1..] + ys;
      TotalAppend(xs[1..], ys);
    }
  }

  lemma {:induction false} Utf16Append(s: string, t: string)
    ensures Utf16(s + t) == Utf16(s) + Utf16(t)
  {
    if s == [] {
      assert s + t == t;
    } else {
      assert (s + t)[0] == s[0];
      assert (s + t)[1..] == s[1..] + t;
      Utf16Append(s[1..], t);
      assert CodeUnits(s[0]) + (Utf16(s[1..]) + Utf16(t)) == (CodeUnits(s[0]) + Utf16(s[1..])) + Utf16(t);
    }
  }

  /** The sum of the code units of a text, over the characters one by one. */
  lemma {:induction false} UnitsNonNegative(s: string)
    ensures Total(Utf16(s)) >= 0
  {
    if s != [] {
      UnitsNonNegative(s[1..]);
      TotalAppend(CodeUnits(s[0]), Utf16(s[1..]));
      var u := CodeUnits(s[0]);
      if |u| == 2 {
        assert Total(u) == u[0] + u[1] by {
          assert u[1..][1..] == [];
        }
      }
    }
  }

  /** The hash: the sum of the code units, as the card folds it. */
  function Hash(s: string): (h: int)
    ensures h == Total(Utf16(s)) && h >= 0
  {
    ReduceIsTotal(0, Utf16(s));
    UnitsNonNegative(s);
    Reduce(0, Utf16(s))
  }

  /** `getDimensionColor(type)`: the gradient at the hash modulo six; the
      empty type has hash 0 and gets the first gradient. */
  function DimensionColor(locationType: string): (g: Gradient)
    ensures g in Gradients
    ensures g == Gradients[Total(Utf16(locationType)) % 6]
    ensures locationType == "" ==> g == Purple
  {
    Gradients[Hash(locationType) % |Gradients|]
  }

  /** The hash of a concatenation is the sum of the hashes. */
  lemma HashAppend(s: string, t: string)
    ensures Total(Utf16(s + t)) == Total(Utf16(s)) + Total(Utf16(t))
  {
    Utf16Append(s, t);
    TotalAppend(Utf16(s), Utf16(t));
  }

  /** The hash of a text is the hash of its first character plus the hash of
      the rest. */
  lemma HashCons(s: string)
    requires s != []
    ensures Total(Utf16(s)) == Total(CodeUnits(s[0])) + Total(Utf16(s[1..]))
  {
    TotalAppend(CodeUnits(s[0]), Utf16(s[1..]));
  }

  /** Taking out the character at `k` takes out its code units from the hash. */
  lemma HashRemove(t: string, k: int)
    requires 0 <= k < |t|
    ensures Total(Utf16(t)) == Total(CodeUnits(t[k])) + Total(Utf16(t[..k] + t[k + 1..]))
  {
    assert t == t[..k] + t[k..];
    HashAppend(t[..k], t[k..]);
    HashCons(t[k..]);
    assert t[k..][1..] == t[k + 1..];
    HashAppend(t[..k], t[k + 1..]);
  }

  /** Taking the first character out of one text and the same character out
      of a rearrangement of it leaves two rearrangements of each other. */
  lemma RemoveOne(s: string, t: string, k: int)
    requires multiset(s) == multiset(t) && s != [] && 0 <= k < |t| && t[k] == s[0]
    ensures multiset(s[1..]) == multiset(t[..k] + t[k + 1..])
  {
    assert t == t[..k] + [t[k]] + t[k + 1..];
    assert s == [s[0]] + s[1..];
    assert multiset(s[1..]) == multiset(s) - multiset{s[0]};
    assert multiset(t[..k] + t[k + 1..]) == multiset(t) - multiset{t[k]};
  }

  /** Rearranging the characters of a type does not change its hash. */
  lemma {:induction false} HashPermutation(s: string, t: string)
    requires multiset(s) == multiset(t)
    ensures Total(Utf16(s)) == Total(Utf16(t))
    decreases |s|
  {
    if s == [] {
      assert |t| == |multiset(t)| == 0;
    } else {
      var c := s[0];
      assert c in multiset(t);
      var k :| 0 <= k < |t| && t[k] == c;
      var rest := t[..k] + t[k + 1..];
      RemoveOne(s, t, k);
      HashPermutation(s[1..], rest);
      HashCons(s);
      HashRemove(t, k);
    }
  }

  /** Equal types, and types that are rearrangements of each other, get the
      same gradient. */
  lemma DimensionColorPermutation(s: string, t: string)
    requires multiset(s) == multiset(t)
    ensures DimensionColor(s) == DimensionColor(t)
  {
    HashPermutation(s, t);
  }

  /** The icon of the card: planet, then dimension, then space, looked for in
      the lower-cased type; the card has no case for clusters. */
  function CardIcon(locationType: string): (icon: Catalog.Icon)
    ensures icon != Catalog.Star
    ensures icon == Catalog.Planet <==> Text.Contains(Text.Lower(locationType), "planet")
    ensures icon == Catalog.Galaxy <==>
      !Text.Contains(Text.Lower(locationType), "planet") && Text.Contains(Text.Lower(locationType), "dimension")
    ensures icon == Catalog.Rocket <==>
      !Text.Contains(Text.Lower(locationType), "planet") && !Text.Contains(Text.Lower(locationType), "dimension")
      && Text.Contains(Text.Lower(locationType), "space")
  {
    var t := Text.Lower(locationType);
    if Text.Contains(t, "planet") then Catalog.Planet
    else if Text.Contains(t, "dimension") then Catalog.Galaxy
    else if Text.Contains(t, "space") then Catalog.Rocket
    else Catalog.Globe
  }

  /** Letter case plays no part in the icon. */
  lemma CardIconIgnoresCase(s: string)
    ensures CardIcon(Text.Lower(s)) == CardIcon(s)
  {
    Text.LowerIdempotent(s);
  }
}
