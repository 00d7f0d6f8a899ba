/** Configuration values, entry keys and table iteration orders shared by the whole model. */
module Toml {

  datatype Option<+T> = None | Some(value: T)

  datatype Result<+T> = Ok(value: T) | Err

  /** A TOML value. Floats and date-times are not part of the model. */
  datatype Value =
    | Str(text: string)
    | Int(number: int)
    | Bool(flag: bool)
    | Arr(items: seq<Value>)
    | Table(entries: map<string, Value>)

  type Fields = map<string, Value>

  datatype Category = Basic | Server | Location | Upstream | Plugin | Certificate | Storage

  const ALL_CATEGORIES: seq<Category> :=
    [Basic, Server, Location, Upstream, Plugin, Certificate, Storage]

  const ITEM_CATEGORIES: seq<Category> :=
    [Server, Location, Upstream, Plugin, Certificate, Storage]

  /** Names one entry of a configuration. The basic section is a single unnamed entry. */
  datatype RawKey = RawKey(category: Category, name: string)

  type Key = k: RawKey | k.category.Basic? ==> k.name == "" witness RawKey(Basic, "")

  /** The entry a category and a name address; the name is ignored for the basic section. */
  function KeyOf(c: Category, name: string): (k: Key) {
    if c.Basic? then RawKey(Basic, "") else RawKey(c, name)
  }

  /** One logical configuration: absent and empty sections are identified. */
  type Config = map<Key, Value>

  /** Projects one section out of a configuration. */
  function Section(config: Config, c: Category): (s: Fields)
    requires !c.Basic?
  {
    map k: Key | k in config && k.category == c :: k.name := config[k]
  }

  /** The order in which the TOML library walks the keys of a table. */
  type Order = set<string> -> seq<string>

  predicate Distinct<T(==)>(xs: seq<T>) {
    forall i, j :: 0 <= i < j < |xs| ==> xs[i] != xs[j]
  }

  predicate Enumerates(ks: seq<string>, s: set<string>) {
    && Distinct(ks)
    && (forall k :: k in ks ==> k in s)
    && (forall k :: k in s ==> k in ks)
  }

  /** Every key of every table is visited exactly once; nothing else is assumed of the order. */
  ghost predicate ValidOrder(order: Order) {
    forall s: set<string> :: Enumerates(order(s), s)
  }

  /** Some enumeration of a set. */
  ghost function Listing(s: set<string>): (ks: seq<string>)
    ensures Enumerates(ks, s)
  {
    if s == {} then []
    else
      var k :| k in s;
      [k] + Listing(s - {k})
  }

  /** There is such an order. */
  lemma OrderExists() returns (order: Order)
    ensures ValidOrder(order)
  {
    order := s => Listing(s);
  }

  lemma CategoryListed(c: Category)
    ensures c in ALL_CATEGORIES
    ensures c in ITEM_CATEGORIES <==> !c.Basic?
  {
    assert ALL_CATEGORIES[0] == Basic && ALL_CATEGORIES[1] == Server && ALL_CATEGORIES[2] == Location;
    assert ALL_CATEGORIES[3] == Upstream && ALL_CATEGORIES[4] == Plugin;
    assert ALL_CATEGORIES[5] == Certificate && ALL_CATEGORIES[6] == Storage;
    assert ITEM_CATEGORIES == ALL_CATEGORIES[1..];
    assert ITEM_CATEGORIES[0] == Server && ITEM_CATEGORIES[1] == Location && ITEM_CATEGORIES[2] == Upstream;
    assert ITEM_CATEGORIES[3] == Plugin && ITEM_CATEGORIES[4] == Certificate && ITEM_CATEGORIES[5] == Storage;
  }

  /** No table is one of its own entries. */
  lemma NoSelfEntry(v: Value, k: string)
    requires v.Table? && k in v.entries
    ensures v.entries[k] != v
  {
    if v.entries[k] == v {
      NoSelfEntry(v.entries[k], k);
    }
  }

  lemma DistinctAppend<T>(xs: seq<T>, ys: seq<T>)
    requires Distinct(xs) && Distinct(ys)
    requires forall x :: x in xs ==> x !in ys
    ensures Distinct(xs + ys)
  {
    var zs := xs + ys;
    forall i, j | 0 <= i < j < |zs| ensures zs[i] != zs[j] {
      if i < |xs| <= j {
        assert zs[i] in xs && zs[j] in ys;
      }
    }
  }
}
