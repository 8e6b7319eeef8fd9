/** `front-end/src/utils/fruitIcons.ts`: the table from produce names to
    emoji and the lookup that normalises its key and falls back to an apple. */
module FruitIcons {
  import Text

  /** `fruitIcons`. */
  const Icons: map<string, string> := map[
      "apple" := "\U{1F34E}",
      "banana" := "\U{1F34C}",
      "beetroot" := "\U{1FAD2}",
      "bell pepper" := "\U{1FAD1}",
      "cabbage" := "\U{1F96C}",
      "capsicum" := "\U{1FAD1}",
      "carrot" := "\U{1F955}",
      "cauliflower" := "\U{1F966}",
      "chilli pepper" := "\U{1F336}\U{FE0F}",
      "corn" := "\U{1F33D}",
      "cucumber" := "\U{1F952}",
      "eggplant" := "\U{1F346}",
      "garlic" := "\U{1F9C4}",
      "ginger" := "\U{1FADA}",
      "grapes" := "\U{1F347}",
      "jalepeno" := "\U{1F336}\U{FE0F}",
      "kiwi" := "\U{1F95D}",
      "lemon" := "\U{1F34B}",
      "lettuce" := "\U{1F96C}",
      "mango" := "\U{1F96D}",
      "onion" := "\U{1F9C5}",
      "orange" := "\U{1F34A}",
      "paprika" := "\U{1FAD1}",
      "pear" := "\U{1F350}",
      "peas" := "\U{1FADB}",
      "pineapple" := "\U{1F34D}",
      "pomegranate" := "\U{1F9FF}",
      "potato" := "\U{1F954}",
      "raddish" := "\U{1FAD2}",
      "soy beans" := "\U{1FAD8}",
      "spinach" := "\U{1F96C}",
      "sweetcorn" := "\U{1F33D}",
      "sweetpotato" := "\U{1F360}",
      "tomato" := "\U{1F345}",
      "turnip" := "\U{1F96C}",
      "watermelon" := "\U{1F349}"
    ]

  const DefaultIcon: string := "\U{1F34E}"

  /** `fruitName.toLowerCase().trim()`. */
  function Normalize(name: string): string {
    Text.Trim(Text.Lower(name))
  }

  /** A table whose emoji are all non-empty strings. */
  predicate NonEmptyValues(table: map<string, string>) {
    forall k :: k in table ==> table[k] != ""
  }

  lemma IconsNonEmpty()
    ensures NonEmptyValues(Icons)
  {
  }

  /** The lookup of `getFruitIcon` over a table: the table's emoji for the
      normalised name, and the default for a name the table does not hold. */
  function IconIn(table: map<string, string>, name: string): (r: string)
    requires NonEmptyValues(table)
    ensures r != ""
    ensures Normalize(name) in table ==> r == table[Normalize(name)]
    ensures Normalize(name) !in table ==> r == DefaultIcon
  {
    var key := Normalize(name);
    if key in table then table[key] else DefaultIcon
  }

  /** `getFruitIcon`. */
  function GetFruitIcon(name: string): (r: string)
    ensures r != ""
    ensures Normalize(name) in Icons ==> r == Icons[Normalize(name)]
    ensures Normalize(name) !in Icons ==> r == DefaultIcon
  {
    IconsNonEmpty();
    IconIn(Icons, name)
  }

  /** Normalising ignores an earlier lower-casing and trimming, and an
      earlier upper-casing. */
  lemma NormalizeIgnores(s: string)
    ensures Normalize(Text.Lower(Text.Trim(s))) == Normalize(s)
    ensures Normalize(Text.Upper(s)) == Normalize(s)
  {
    var t := Text.Trim(s);
    Text.LowerIdempotent(t);
    assert Normalize(Text.Lower(t)) == Text.Trim(Text.Lower(t));
    Text.TrimLowerCommute(t);
    Text.TrimIdempotent(s);
    Text.TrimLowerCommute(s);
    Text.LowerOfUpper(s);
  }

  /** The lookup ignores case and surrounding whitespace. */
  lemma IconInIgnoresCaseAndSpace(table: map<string, string>, s: string)
    requires NonEmptyValues(table)
    ensures IconIn(table, s) == IconIn(table, Text.Lower(Text.Trim(s)))
    ensures IconIn(table, s) == IconIn(table, Text.Upper(s))
  {
    NormalizeIgnores(s);
    SameKeySameIcon(table, s, Text.Lower(Text.Trim(s)));
    SameKeySameIcon(table, s, Text.Upper(s));
  }

  lemma SameKeySameIcon(table: map<string, string>, a: string, b: string)
    requires NonEmptyValues(table) && Normalize(a) == Normalize(b)
    ensures IconIn(table, a) == IconIn(table, b)
  {
  }

  lemma LookupIgnoresCaseAndSpace(s: string)
    ensures GetFruitIcon(s) == GetFruitIcon(Text.Lower(Text.Trim(s)))
    ensures GetFruitIcon(s) == GetFruitIcon(Text.Upper(s))
  {
    IconsNonEmpty();
    IconInIgnoresCaseAndSpace(Icons, s);
  }

  /** A string with no upper-case ASCII letter and no surrounding
      whitespace is already normal. */
  lemma NormalAlready(s: string)
    requires forall i :: 0 <= i < |s| ==> !('A' <= s[i] <= 'Z')
    requires |s| > 0 ==> !Text.IsSpace(s[0]) && !Text.IsSpace(s[|s| - 1])
    ensures Normalize(s) == s
  {
    assert Text.Lower(s) == s;
    assert Text.TrimStart(s) == s;
  }

  // ---------------------------------------------------------------------
  // The lookup as written

  /** The members every plain JavaScript object inherits from
      `Object.prototype`. */
  const PrototypeKeys: set<string> := {
    "constructor", "__proto__", "hasOwnProperty", "isPrototypeOf", "propertyIsEnumerable",
    "toString", "toLocaleString", "valueOf",
    "__defineGetter__", "__defineSetter__", "__lookupGetter__", "__lookupSetter__"
  }

  /** What `fruitIcons[key]` reads from an object literal: an own string,
      an inherited member (a function or an object, both truthy), or
      `undefined`. */
  datatype JsLookup = OwnString(s: string) | Inherited(member: string) | Missing

  function Lookup(table: map<string, string>, key: string): JsLookup {
    if key in table then OwnString(table[key])
    else if key in PrototypeKeys then Inherited(key)
    else Missing
  }

  /** What `getFruitIcon` hands back: a string, or an inherited member
      that is not one. */
  datatype JsResult = JsStr(s: string) | NotAString(member: string)

  /** `table[normalized] || '🍎'` on an object literal. */
  function IconInAsWritten(table: map<string, string>, name: string): (r: JsResult)
    ensures r.NotAString? <==> Normalize(name) !in table && Normalize(name) in PrototypeKeys
  {
    match Lookup(table, Normalize(name))
    case OwnString(s) => JsStr(if s != "" then s else DefaultIcon)
    case Inherited(member) => NotAString(member)
    case Missing => JsStr(DefaultIcon)
  }

  /** Off the inherited names, the lookup as written agrees with the
      corrected one. */
  lemma AsWrittenAgreesOffPrototype(table: map<string, string>, name: string)
    requires NonEmptyValues(table) && Normalize(name) !in PrototypeKeys
    ensures IconInAsWritten(table, name) == JsStr(IconIn(table, name))
  {
  }

  /** `getFruitIcon` as written. */
  function GetFruitIconAsWritten(name: string): (r: JsResult)
    ensures r.NotAString? ==> Normalize(name) in PrototypeKeys
    ensures Normalize(name) !in PrototypeKeys ==> r == JsStr(GetFruitIcon(name))
  {
    IconsNonEmpty();
    if Normalize(name) !in PrototypeKeys then
      AsWrittenAgreesOffPrototype(Icons, name);
      IconInAsWritten(Icons, name)
    else IconInAsWritten(Icons, name)
  }

  /** `getFruitIcon('Constructor')` yields the inherited `Object`
      constructor instead of an emoji. */
  lemma AsWrittenCounterexample()
    ensures GetFruitIconAsWritten("Constructor") == NotAString("constructor")
    ensures GetFruitIcon("Constructor") == DefaultIcon
  {
    NormalizeConstructor();
    ConstructorNotAnIcon();
  }

  lemma NormalizeConstructor()
    ensures Normalize("Constructor") == "constructor"
  {
    NormalizeCapitalised("Constructor", "constructor");
  }

  /** Normalising a word whose only capital is its first letter. */
  lemma NormalizeCapitalised(a: string, b: string)
    requires |a| == |b| > 0 && 'A' <= a[0] <= 'Z' && b[0] == Text.LowerChar(a[0])
    requires forall i :: 1 <= i < |a| ==> a[i] == b[i] && 'a' <= a[i] <= 'z'
    ensures Normalize(a) == b
  {
    assert forall i :: 0 <= i < |a| ==> Text.Lower(a)[i] == b[i];
    assert Text.Lower(a) == b;
    NormalAlready(b);
  }

  lemma ConstructorNotAnIcon()
    ensures "constructor" !in Icons && "constructor" in PrototypeKeys
  {
  }
}
