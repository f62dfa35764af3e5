/**
 * Menu entries, the merge of an entry over the shared default entry, and the
 * React keys the submenu renderer gives its children.
 */
module MenuItems {
  import opened Wrappers

  /** The scalar values a menu entry can carry in its plain fields. */
  datatype Value = Str(s: string) | Num(n: int) | Bool(b: bool) | Null

  /** The plain properties of a menu entry, by name; its `submenu` property is kept apart. */
  type Fields = map<string, Value>

  /**
   * A menu entry: its plain properties and its `submenu` property.
   */
  datatype MenuItem = MenuItem(fields: Fields, submenu: Submenu)

  /**
   * The `submenu` property. `Undefined` stands for a missing or `undefined`
   * value, `Falsy` for the other falsy values (`null`, `false`, `0`, `""`).
   * `Entries([])` is an empty array, which is truthy in JavaScript and so
   * still makes its entry a submenu.
   */
  datatype Submenu = Undefined | Falsy | Entries(items: seq<MenuItem>)

  const LabelKey: string := "label"
  const TypeKey: string := "type"

  /** `{ ...defaults, ...fields }`: the entry's own keys win over the defaults. */
  function Merge(defaults: Fields, fields: Fields): (r: Fields)
    ensures r.Keys == defaults.Keys + fields.Keys
    ensures forall k :: k in fields ==> r[k] == fields[k]
    ensures forall k :: k in defaults && k !in fields ==> r[k] == defaults[k]
  {
    defaults + fields
  }

  /** `{ ...defaults, ...fields, type: 'submenu' }`, the item handed to a nested submenu. */
  function SubmenuFields(defaults: Fields, fields: Fields): (r: Fields)
    ensures r.Keys == defaults.Keys + fields.Keys + {TypeKey}
    ensures TypeKey in r && r[TypeKey] == Str("submenu")
    ensures forall k :: k in fields && k != TypeKey ==> r[k] == fields[k]
    ensures forall k :: k in defaults && k !in fields && k != TypeKey ==> r[k] == defaults[k]
  {
    Merge(defaults, fields)[TypeKey := Str("submenu")]
  }

  /** Spreading the defaults under an already merged entry again changes nothing. */
  lemma {:induction false} MergeIdempotent(defaults: Fields, fields: Fields)
    ensures Merge(defaults, Merge(defaults, fields)) == Merge(defaults, fields)
    ensures Merge(defaults, SubmenuFields(defaults, fields)) == SubmenuFields(defaults, fields)
  {
  }

  /** The decimal digits of a natural number, as JavaScript prints it. */
  function Natural(n: nat): (r: string)
    ensures |r| >= 1
    ensures |r| == 1 <==> n < 10
    ensures IsDigits(r)
    ensures r[0] != '0' || n == 0
  {
    if n < 10 then [Digit(n)] else Natural(n / 10) + [Digit(n % 10)]
  }

  function Digit(d: nat): (c: char)
    requires d < 10
    ensures '0' <= c <= '9' && c as int - '0' as int == d
  {
    "0123456789"[d]
  }

  predicate IsDigits(s: string)
  {
    forall k :: 0 <= k < |s| ==> '0' <= s[k] <= '9'
  }

  /** The number a string of decimal digits denotes, most significant digit first. */
  function DigitsValue(s: string): nat
    requires IsDigits(s)
    decreases |s|
  {
    if s == [] then 0
    else DigitsValue(s[..|s| - 1]) * 10 + (s[|s| - 1] as int - '0' as int)
  }

  /** `Natural(n)` is the decimal form of `n`: read back as digits it denotes `n`. */
  lemma {:induction false} NaturalValue(n: nat)
    ensures DigitsValue(Natural(n)) == n
  {
    if n >= 10 {
      var s := Natural(n);
      assert s[..|s| - 1] == Natural(n / 10);
      NaturalValue(n / 10);
    }
  }

  /**
   * How a template literal `${v}` prints a property: text as it is, an integer
   * in decimal with a leading `-` when negative, `undefined` when it is missing.
   */
  function TemplateText(v: Option<Value>): (r: string)
    ensures v.None? ==> r == "undefined"
    ensures v.Some? && v.value.Str? ==> r == v.value.s
    ensures v.Some? && v.value.Num? && v.value.n >= 0 ==>
      |r| >= 1 && IsDigits(r) && DigitsValue(r) == v.value.n && (r[0] != '0' || v.value.n == 0)
    ensures v.Some? && v.value.Num? && v.value.n < 0 ==>
      |r| >= 2 && r[0] == '-' && IsDigits(r[1..]) && DigitsValue(r[1..]) == -v.value.n && r[1] != '0'
    ensures v.Some? && v.value.Bool? ==> r == (if v.value.b then "true" else "false")
    ensures v == Some(Null) ==> r == "null"
  {
    match v
    case None => "undefined"
    case Some(Str(s)) => s
    case Some(Num(n)) =>
      var m: nat := if n < 0 then -n else n;
      NaturalValue(m);
      var digits := Natural(m);
      assert ("-" + digits)[1..] == digits;
      if n < 0 then "-" + digits else digits
    case Some(Bool(b)) => if b then "true" else "false"
    case Some(Null) => "null"
  }

  /**
   * The key `${i}${menuItem.label}` of the `i`-th child, read from the entry as
   * given: the decimal digits of `i`, then the printed label.
   */
  function Key(i: nat, item: MenuItem): (r: string)
    ensures |r| == |Natural(i)| + |TemplateText(Get(item.fields, LabelKey))|
    ensures IsDigits(r[..|Natural(i)|]) && DigitsValue(r[..|Natural(i)|]) == i
    ensures r[|Natural(i)|..] == TemplateText(Get(item.fields, LabelKey))
  {
    var digits := Natural(i);
    var r := digits + TemplateText(Get(item.fields, LabelKey));
    NaturalValue(i);
    assert r[..|digits|] == digits;
    r
  }

  /** Different numbers have different decimal texts. */
  lemma NaturalInjective(a: nat, b: nat)
    requires Natural(a) == Natural(b)
    ensures a == b
  {
    NaturalValue(a);
    NaturalValue(b);
  }

  /** Two children with the same label but at different indices get different keys. */
  lemma SameLabelDistinctKeys(i: nat, j: nat, a: MenuItem, b: MenuItem)
    requires i != j
    requires Get(a.fields, LabelKey) == Get(b.fields, LabelKey)
    ensures Key(i, a) != Key(j, b)
  {
  }

  /** Keys are not unique in general: index 1 labelled "1a" and index 11 labelled "a" share "11a". */
  lemma KeysMayCollide()
    ensures Key(1, MenuItem(map[LabelKey := Str("1a")], Undefined))
         == Key(11, MenuItem(map[LabelKey := Str("a")], Undefined))
  {
  }
}
