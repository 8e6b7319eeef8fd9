/** `front-end/src/pages/FruitInfoPage.tsx`: the eight-fruit reference table
    and the case-insensitive name search over it. */
module FruitInfo {
  import Text
  import Seqs

  /** One row of the table; calories per serving, vitamin C as shown. */
  datatype Fruit = Fruit(name: string, emoji: string, category: string, calories: nat, vitaminC: string)

  const Fruits: seq<Fruit> := [
    Fruit("Apple", "\U{1F34E}", "Pome Fruit", 95, "14% DV"),
    Fruit("Banana", "\U{1F34C}", "Tropical", 105, "17% DV"),
    Fruit("Orange", "\U{1F34A}", "Citrus", 62, "116% DV"),
    Fruit("Strawberry", "\U{1F353}", "Berry", 49, "149% DV"),
    Fruit("Grapes", "\U{1F347}", "Berry", 104, "27% DV"),
    Fruit("Watermelon", "\U{1F349}", "Berry", 46, "21% DV"),
    Fruit("Pineapple", "\U{1F34D}", "Tropical", 82, "131% DV"),
    Fruit("Mango", "\U{1F96D}", "Tropical", 99, "67% DV")
  ]

  /** The search keeps a fruit when its lower-cased name contains the
      lower-cased term. */
  predicate Matches(f: Fruit, term: string) {
    Text.Contains(Text.Lower(f.name), Text.Lower(term))
  }

  /** `filteredFruits`: the matching fruits, in table order. */
  function FilterFruits(fruits: seq<Fruit>, term: string): (r: seq<Fruit>)
    ensures forall f :: f in r <==> f in fruits && Matches(f, term)
    ensures forall i :: 0 <= i < |r| ==> Matches(r[i], term)
    ensures Seqs.IsSubsequence(r, fruits)
    ensures forall f :: multiset(r)[f] == if Matches(f, term) then multiset(fruits)[f] else 0
  {
    if fruits == [] then []
    else
      var rest := FilterFruits(fruits[1..], term);
      assert fruits == [fruits[0]] + fruits[1..];
      Seqs.FilterCountStep(fruits, rest, f => Matches(f, term));
      if Matches(fruits[0], term) then [fruits[0]] + rest else rest
  }

  /** The page's list for a search term. */
  function Search(term: string): (r: seq<Fruit>)
    ensures |r| <= 8
    ensures forall f :: f in r <==> f in Fruits && Matches(f, term)
    ensures Seqs.IsSubsequence(r, Fruits)
  {
    var r := FilterFruits(Fruits, term);
    Seqs.SubsequenceLength(r, Fruits);
    r
  }

  /** An empty search shows every fruit. */
  lemma {:induction false} EmptyTermKeepsAll(fruits: seq<Fruit>)
    ensures FilterFruits(fruits, "") == fruits
  {
    if fruits != [] {
      assert Text.OccursAt(Text.Lower(fruits[0].name), "", 0);
      EmptyTermKeepsAll(fruits[1..]);
    }
  }

  lemma EmptySearchShowsAll()
    ensures Search("") == Fruits
  {
    EmptyTermKeepsAll(Fruits);
  }

  /** The search ignores the case of the term. */
  lemma {:induction false} UpperTermSame(fruits: seq<Fruit>, term: string)
    ensures FilterFruits(fruits, Text.Upper(term)) == FilterFruits(fruits, term)
  {
    Text.LowerOfUpper(term);
    if fruits != [] {
      UpperTermSame(fruits[1..], term);
    }
  }

  /** Narrowing the term never brings a fruit back: a fruit kept for a
      longer term is kept for each of its prefixes. */
  lemma PrefixTermKeepsMore(f: Fruit, term: string, n: nat)
    requires n <= |term| && Matches(f, term)
    ensures Matches(f, term[..n])
  {
    var name := Text.Lower(f.name);
    var i :| Text.OccursAt(name, Text.Lower(term), i);
    assert Text.Lower(term[..n]) == Text.Lower(term)[..n];
    assert name[i..i + n] == Text.Lower(term)[..n];
    assert Text.OccursAt(name, Text.Lower(term[..n]), i);
  }
}
