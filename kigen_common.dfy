/**
 * The shared part of the deadline-management lists: the display parameters read from the
 * query string (`get_page_paramegers`) and the ordering of the listed properties
 * (`sort_properties`) by next deadline, registration number, management number, first
 * holder or user.
 */
module KigenCommon {
  import opened Wrappers
  import opened Text
  import opened Dates
  import opened Sorting

  // ---------------------------------------------------------------------------------------
  // Display parameters
  // ---------------------------------------------------------------------------------------

  /** The page (from 1), the sort key and the sort direction of a list view. */
  datatype Params = Params(page: int, sort: string, direction: string)

  /** The sort keys the lists offer. */
  predicate SortKey(s: string) {
    s == "r" || s == "h" || s == "u" || s == "n" || s == "m"
  }

  predicate Direction(s: string) {
    s == "a" || s == "d"
  }

  /**
   * `get_page_paramegers()` with the three query values `p`, `s` and `d` as parameters:
   * a page that is missing or that `int()` rejects is page 1, an unknown or missing sort key
   * is `n`, and an unknown or missing direction is `a`.
   */
  function PageParameters(p: Option<string>, s: Option<string>, d: Option<string>): (r: Params)
    ensures SortKey(r.sort) && Direction(r.direction)
    ensures r.page == if p.Some? && IntOf(p.value).Some? then IntOf(p.value).value else 1
    ensures r.sort == if s.Some? && SortKey(s.value) then s.value else "n"
    ensures r.direction == if d.Some? && Direction(d.value) then d.value else "a"
  {
    var page := if p == None then 1 else match IntOf(p.value) case Some(n) => n case None => 1;
    var sort := if s == None then "n" else if !SortKey(s.value) then "n" else s.value;
    var dire := if d == None then "a" else if !Direction(d.value) then "a" else d.value;
    Params(page, sort, dire)
  }

  /** Parameters written back into a link as text are read back unchanged. */
  lemma ParametersRoundTrip(p: Option<string>, s: Option<string>, d: Option<string>)
    ensures var r := PageParameters(p, s, d);
      PageParameters(Some(Decimal(r.page)), Some(r.sort), Some(r.direction)) == r
  {
  }

  // ---------------------------------------------------------------------------------------
  // Ordering the listed properties
  // ---------------------------------------------------------------------------------------

  /** The fields of a listed property that the orderings read; `None` where the key is absent. */
  datatype Listed = Listed(
    limit: Option<Date>,
    registrationNumber: Option<string>,
    managementNumber: Option<string>,
    holders: Option<seq<string>>,
    userOrganization: Option<string>,
    userName: Option<string>)

  /** A day in microseconds, the resolution of Python's `datetime`. */
  const DayMicros: int := 86400000000

  /** `datetime.min` and `datetime.max` on the microsecond scale of `LimitKey`. */
  const DateTimeMin: int := Ordinal(Date(1, 1, 1)) * DayMicros
  const DateTimeMax: int := Ordinal(Date(9999, 12, 31)) * DayMicros + DayMicros - 1

  /** The key of the `n` ordering: the deadline at midnight, or `datetime.min`/`datetime.max` when it is missing. */
  function LimitKey(x: Listed, descending: bool): int {
    match x.limit
    case Some(d) => Ordinal(d) * DayMicros
    case None => if descending then DateTimeMin else DateTimeMax
  }

  /** The string that stands for a missing value: the literal `'\U00010FFFF'`, which Python reads as U+10FFF followed by `F`. */
  const Sentinel: string := "\U{10FFF}F"

  /**
   * The key of the `r`, `m`, `h` and `u` orderings, with `high` for what is missing: the
   * registration number, the management number, the first holder, or the user's organisation,
   * then `high` before the user name, then `high` twice. A property with an empty holder list
   * has no key (Python raises `IndexError`); `[]` stands in here.
   */
  function TextKey(x: Listed, key: string, high: string): string {
    if key == "r" then (if x.registrationNumber.Some? then x.registrationNumber.value else high)
    else if key == "m" then (if x.managementNumber.Some? then x.managementNumber.value else high)
    else if key == "h" then
      (if x.holders.Some? then (if x.holders.value != [] then x.holders.value[0] else []) else high)
    else if x.userOrganization.Some? then x.userOrganization.value
    else if x.userName.Some? then high + x.userName.value
    else high + high
  }

  /** The order `sorted` uses: ascending by key, or descending with `reverse=True`. */
  function LimitOrder(descending: bool): (Listed, Listed) -> bool {
    if descending then (a: Listed, b: Listed) => LimitKey(b, true) <= LimitKey(a, true)
    else (a: Listed, b: Listed) => LimitKey(a, false) <= LimitKey(b, false)
  }

  function TextOrder(key: string, high: string, descending: bool): (Listed, Listed) -> bool {
    if descending then (a: Listed, b: Listed) => LexLe(TextKey(b, key, high), TextKey(a, key, high))
    else (a: Listed, b: Listed) => LexLe(TextKey(a, key, high), TextKey(b, key, high))
  }

  /** The order of sort key `key`; the identity for a key the lists do not know. */
  function OrderOf(key: string, high: string, descending: bool): (Listed, Listed) -> bool {
    if key == "n" then LimitOrder(descending) else TextOrder(key, high, descending)
  }

  /** Some property has a holder list with no first holder. */
  predicate EmptyHolders(props: seq<Listed>) {
    exists i :: 0 <= i < |props| && props[i].holders == Some([])
  }

  /** `sort_properties` with the missing-value string `high` as a parameter. */
  function SortWith(props: seq<Listed>, key: string, direction: string, high: string): (r: Result<seq<Listed>, Exception>)
    ensures r.Err? <==> key == "h" && EmptyHolders(props)
    ensures r.Err? ==> r.error == IndexError
    ensures r.Ok? ==> multiset(r.value) == multiset(props) && |r.value| == |props|
  {
    if key == "n" || key == "r" || key == "m" || key == "h" || key == "u" then
      if key == "h" && EmptyHolders(props) then Err(IndexError)
      else
        SortPermutes(props, OrderOf(key, high, direction == "d"));
        Ok(SortBy(props, OrderOf(key, high, direction == "d")))
    else Ok(props)
  }

  /** `sort_properties(props, sort_key, sort_direction)`, as written. */
  function SortProperties(props: seq<Listed>, key: string, direction: string): Result<seq<Listed>, Exception> {
    SortWith(props, key, direction, Sentinel)
  }

  /** `sort_properties` with the sentinel evidently meant: the highest code point, U+10FFFF. */
  function SortPropertiesIntended(props: seq<Listed>, key: string, direction: string): Result<seq<Listed>, Exception> {
    SortWith(props, key, direction, "\U{10FFFF}")
  }

  // ---------------------------------------------------------------------------------------
  // Properties of the orderings
  // ---------------------------------------------------------------------------------------

  /** Every ordering compares through a key, so it is total and transitive. */
  lemma OrderTotal(key: string, high: string, descending: bool)
    ensures TotalPreorder(OrderOf(key, high, descending))
  {
    if key != "n" {
      var le := OrderOf(key, high, descending);
      forall a: Listed, b: Listed ensures le(a, b) || le(b, a) {
        LexTotal(TextKey(a, key, high), TextKey(b, key, high));
      }
      forall a: Listed, b: Listed, c: Listed | le(a, b) && le(b, c) ensures le(a, c) {
        var ka, kb, kc := TextKey(a, key, high), TextKey(b, key, high), TextKey(c, key, high);
        if descending {
          LexTransitive(kc, kb, ka);
        } else {
          LexTransitive(ka, kb, kc);
        }
      }
    }
  }

  /**
   * For a known key the result is ordered by it, and properties with equal keys keep their
   * input order; an unknown key returns the list as it is.
   */
  lemma SortedAndStable(props: seq<Listed>, key: string, direction: string, high: string, y: Listed)
    requires SortWith(props, key, direction, high).Ok?
    ensures var r := SortWith(props, key, direction, high).value;
      if SortKey(key) then
        var le := OrderOf(key, high, direction == "d");
        SortedBy(r, le) && Tied(r, y, le) == Tied(props, y, le)
      else r == props
  {
    if SortKey(key) {
      OrderTotal(key, high, direction == "d");
      SortSorts(props, OrderOf(key, high, direction == "d"));
      SortStable(props, y, OrderOf(key, high, direction == "d"));
    }
  }

  /** A deadline Python can hold lies strictly between `datetime.min`'s day and `datetime.max`. */
  lemma LimitKeyBounds(d: Date)
    requires Valid(d) && 1 <= d.year <= 9999
    ensures DateTimeMin <= Ordinal(d) * DayMicros < DateTimeMax
    ensures d != Date(1, 1, 1) ==> DateTimeMin < Ordinal(d) * DayMicros
  {
    var first, last := Date(1, 1, 1), Date(9999, 12, 31);
    if d != first {
      assert Before(first, d);
      OrdinalMonotone(first, d);
    }
    if d != last {
      assert Before(d, last);
      OrdinalMonotone(d, last);
    }
  }

  /** The deadlines of a list are dates Python can hold, none of them `datetime.min`'s day. */
  predicate PlainLimits(props: seq<Listed>) {
    forall i :: 0 <= i < |props| && props[i].limit.Some? ==>
      var d := props[i].limit.value; Valid(d) && 1 <= d.year <= 9999 && d != Date(1, 1, 1)
  }

  /** By next deadline, the properties without one come after all the others, in either direction. */
  lemma MissingLimitsLast(props: seq<Listed>, direction: string, high: string, i: nat, j: nat)
    requires PlainLimits(props)
    requires SortWith(props, "n", direction, high).Ok?
    requires var r := SortWith(props, "n", direction, high).value; i < j < |r| && r[j].limit.Some?
    ensures SortWith(props, "n", direction, high).value[i].limit.Some?
  {
    var r := SortWith(props, "n", direction, high).value;
    var le := OrderOf("n", high, direction == "d");
    SortedAndStable(props, "n", direction, high, r[0]);
    assert le(r[i], r[j]);
    MembersSurviveSort(props, le, r[j]);
    var k :| 0 <= k < |props| && props[k] == r[j];
    LimitKeyBounds(r[j].limit.value);
  }

  /** The strings that come before a missing-value string `high` and everything it begins. */
  predicate Below(s: string, high: string) {
    s == [] || (high != [] && s[0] < high[0])
  }

  lemma BelowPrecedes(s: string, high: string, t: string)
    requires Below(s, high) && high != []
    ensures LexLe(s, high + t) && !LexLe(high + t, s)
  {
  }

  /**
   * The keys of the properties are below `high`: what makes the text orderings put
   * properties with a value before those without one.
   */
  predicate KeysBelow(props: seq<Listed>, high: string) {
    forall i :: 0 <= i < |props| ==>
      && (props[i].registrationNumber.Some? ==> Below(props[i].registrationNumber.value, high))
      && (props[i].managementNumber.Some? ==> Below(props[i].managementNumber.value, high))
      && (props[i].holders.Some? && props[i].holders.value != [] ==> Below(props[i].holders.value[0], high))
      && (props[i].userOrganization.Some? ==> Below(props[i].userOrganization.value, high))
      && (props[i].userName.Some? ==> Below(props[i].userName.value, high))
  }

  /** How far down a property sorts under key `key`: 0 with a value, then 1 (name only, for `u`), then 2. */
  function Tier(x: Listed, key: string): nat {
    if key == "r" then (if x.registrationNumber.Some? then 0 else 2)
    else if key == "m" then (if x.managementNumber.Some? then 0 else 2)
    else if key == "h" then (if x.holders.Some? then 0 else 2)
    else if x.userOrganization.Some? then 0
    else if x.userName.Some? then 1
    else 2
  }

  /** With every key below `high`, a lower tier sorts strictly before a higher one. */
  lemma TierOrder(x: Listed, y: Listed, key: string, high: string)
    requires key == "r" || key == "m" || key == "h" || key == "u"
    requires KeysBelow([x, y], high) && high != []
    requires Tier(x, key) < Tier(y, key)
    ensures !LexLe(TextKey(y, key, high), TextKey(x, key, high))
  {
    assert [x, y][0] == x && [x, y][1] == y;
    var kx, ky := TextKey(x, key, high), TextKey(y, key, high);
    if key == "u" && Tier(x, key) == 1 {
      BelowPrecedes(x.userName.value, high, []);
      assert ky == high + high;
      assert kx == high + x.userName.value;
      TierNameOrder(x.userName.value, high);
    } else {
      assert Below(kx, high);
      var rest := if key == "u" && Tier(y, key) == 1 then y.userName.value
        else if key == "u" then high else [];
      assert ky == high + rest;
      BelowPrecedes(kx, high, rest);
    }
  }

  /** `high` followed by a name below `high` precedes `high` twice. */
  lemma TierNameOrder(name: string, high: string)
    requires Below(name, high) && high != []
    ensures !LexLe(high + high, high + name)
  {
    HighPrefix(high, high, name);
    BelowPrecedes(name, high, []);
    assert high + [] == high;
  }

  /** Two strings after a common prefix compare as their rests do. */
  lemma {:induction false} HighPrefix(p: string, a: string, b: string)
    ensures LexLe(p + a, p + b) <==> LexLe(a, b)
  {
    if p != [] {
      assert (p + a)[1..] == p[1..] + a;
      assert (p + b)[1..] == p[1..] + b;
      HighPrefix(p[1..], a, b);
    } else {
      assert p + a == a && p + b == b;
    }
  }

  /**
   * Ascending by registration number, management number, first holder or user, when every
   * key is below the missing-value string, properties with the value come first, and for `u`
   * the name-only ones come before those with neither.
   */
  lemma TiersInOrder(props: seq<Listed>, key: string, high: string, i: nat, j: nat)
    requires key == "r" || key == "m" || key == "h" || key == "u"
    requires high != [] && KeysBelow(props, high)
    requires SortWith(props, key, "a", high).Ok?
    requires i < j < |SortWith(props, key, "a", high).value|
    ensures var r := SortWith(props, key, "a", high).value; Tier(r[i], key) <= Tier(r[j], key)
  {
    var r := SortWith(props, key, "a", high).value;
    var le := OrderOf(key, high, false);
    SortedAndStable(props, key, "a", high, r[0]);
    assert le(r[i], r[j]);
    MembersSurviveSort(props, le, r[i]);
    MembersSurviveSort(props, le, r[j]);
    var a :| 0 <= a < |props| && props[a] == r[i];
    var b :| 0 <= b < |props| && props[b] == r[j];
    assert KeysBelow([r[j], r[i]], high) by {
      assert [r[j], r[i]][0] == props[b] && [r[j], r[i]][1] == props[a];
    }
    if Tier(r[j], key) < Tier(r[i], key) {
      TierOrder(r[j], r[i], key, high);
    }
  }

  /**
   * With the intended sentinel U+10FFFF, the only code point no text key begins with, the
   * missing values sort last for any keys except ones that begin with that noncharacter.
   */
  lemma IntendedTiersInOrder(props: seq<Listed>, key: string, i: nat, j: nat)
    requires key == "r" || key == "m" || key == "h" || key == "u"
    requires KeysBelow(props, "\U{10FFFF}")
    requires SortPropertiesIntended(props, key, "a").Ok?
    requires i < j < |SortPropertiesIntended(props, key, "a").value|
    ensures var r := SortPropertiesIntended(props, key, "a").value; Tier(r[i], key) <= Tier(r[j], key)
  {
    TiersInOrder(props, key, "\U{10FFFF}", i, j);
  }

  /** The first holder of the example: 𠮷野家, whose first character is U+20BB7. */
  const Yoshinoya: string := "\U{20BB7}野家"

  /**
   * As written, a property whose first holder begins with a character above U+10FFF sorts
   * after a property with no holders at all.
   */
  lemma SentinelMisorders()
    ensures var held := Listed(None, None, None, Some([Yoshinoya]), None, None);
      var none := Listed(None, None, None, None, None, None);
      SortProperties([held, none], "h", "a") == Ok([none, held])
  {
    var held := Listed(None, None, None, Some([Yoshinoya]), None, None);
    var none := Listed(None, None, None, None, None, None);
    var le := OrderOf("h", Sentinel, false);
    assert !EmptyHolders([held, none]);
    assert !le(held, none) by {
      assert TextKey(held, "h", Sentinel) == Yoshinoya;
      assert TextKey(none, "h", Sentinel) == Sentinel;
    }
    assert SortBy([held, none], le) == Insert(SortBy([held], le), none, le) by {
      assert [held, none][..1] == [held];
    }
    assert SortBy([held], le) == [held] by {
      assert [held][..0] == [];
    }
    assert Insert([held], none, le) == Insert([], none, le) + [held] by {
      assert [held][..0] == [];
    }
    assert Insert([], none, le) + [held] == [none, held];
    assert SortProperties([held, none], "h", "a") == Ok(SortBy([held, none], le));
  }

  /** With the intended sentinel the same two properties keep the holder first. */
  lemma IntendedSentinelOrders()
    ensures var held := Listed(None, None, None, Some([Yoshinoya]), None, None);
      var none := Listed(None, None, None, None, None, None);
      SortPropertiesIntended([held, none], "h", "a") == Ok([held, none])
  {
    var held := Listed(None, None, None, Some([Yoshinoya]), None, None);
    var none := Listed(None, None, None, None, None, None);
    var le := OrderOf("h", "\U{10FFFF}", false);
    assert !EmptyHolders([held, none]);
    assert le(held, none) by {
      assert TextKey(held, "h", "\U{10FFFF}") == Yoshinoya;
    }
    assert SortBy([held, none], le) == Insert(SortBy([held], le), none, le) by {
      assert [held, none][..1] == [held];
    }
    assert SortBy([held], le) == [held] by {
      assert [held][..0] == [];
    }
    assert Insert([held], none, le) == [held] + [none];
    assert [held] + [none] == [held, none];
    assert SortPropertiesIntended([held, none], "h", "a") == Ok(SortBy([held, none], le));
  }
}
