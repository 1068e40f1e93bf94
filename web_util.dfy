/**
 * Two helpers of the web layer: paging a list for display (`paging`) and turning a
 * handler's result into JSON-safe values (`adjust_to_json`), which replaces every
 * `datetime` by its text and every `ObjectId` by its hexadecimal string.
 */
module WebUtil {
  import opened Wrappers
  import opened Text
  import opened Dates

  // ---------------------------------------------------------------------------------------
  // Paging
  // ---------------------------------------------------------------------------------------

  /** What `paging` returns: the items of the page, the number of pages and the page shown. */
  datatype Page<T> = Page(items: seq<T>, pageMax: nat, current: int)

  function MinInt(a: int, b: int): int {
    if a <= b then a else b
  }

  /** Euclid's division of `n - 1` by `size`, read as a page count. */
  lemma PageCount(n: nat, size: nat)
    requires 1 <= size && 1 <= n
    ensures size * ((n - 1) / size) <= n - 1 < size * ((n - 1) / size + 1)
  {
    var q, r := (n - 1) / size, (n - 1) % size;
    assert n - 1 == size * q + r && 0 <= r < size;
    assert size * (q + 1) == size * q + size;
  }

  lemma MulMonotone(size: nat, a: int, b: int)
    requires a <= b
    ensures size * a <= size * b
  {
    assert size * b - size * a == size * (b - a);
  }

  /** The number of pages `paging` reports for `n` items. */
  function PageMax(n: nat, size: nat): nat
    requires size >= 1
  {
    if n <= size then 1 else (n - 1) / size + 1
  }

  /**
   * `paging(targets, page_size, current_page)`. A list that fits on one page comes back whole
   * as page 1 of 1; otherwise the page number is clamped into range and that page is cut out.
   */
  function Paging<T>(targets: seq<T>, pageSize: nat, currentPage: int): (p: Page<T>)
    requires pageSize >= 1
    ensures p.pageMax == PageMax(|targets|, pageSize)
    ensures 1 <= p.current <= p.pageMax
    ensures p.current == if currentPage < 1 then 1 else MinInt(currentPage, p.pageMax)
    ensures targets == [] ==> p.pageMax == 1
    ensures targets != [] ==> pageSize * (p.pageMax - 1) < |targets| <= pageSize * p.pageMax
    ensures pageSize * (p.current - 1) <= MinInt(pageSize * p.current, |targets|)
    ensures p.items == targets[pageSize * (p.current - 1) .. MinInt(pageSize * p.current, |targets|)]
    ensures |p.items| <= pageSize
  {
    if |targets| <= pageSize then
      assert pageSize * 1 == pageSize;
      Page(targets, 1, 1)
    else
      var pMax := PageMax(|targets|, pageSize);
      PageCount(|targets|, pageSize);
      var c := if currentPage < 1 then 1 else MinInt(currentPage, pMax);
      MulMonotone(pageSize, c - 1, pMax - 1);
      assert pageSize * c == pageSize * (c - 1) + pageSize;
      Page(targets[pageSize * (c - 1) .. MinInt(pageSize * c, |targets|)], pMax, c)
  }

  /** The items of pages 1 to `k`, one after the other. */
  function Pages<T>(targets: seq<T>, pageSize: nat, k: nat): seq<T>
    requires pageSize >= 1
  {
    if k == 0 then [] else Pages(targets, pageSize, k - 1) + Paging(targets, pageSize, k).items
  }

  /** The first `k` pages are the start of the list, up to the end of page `k`. */
  lemma {:induction false} PagesPrefix<T>(targets: seq<T>, pageSize: nat, k: nat)
    requires pageSize >= 1 && k <= PageMax(|targets|, pageSize)
    ensures Pages(targets, pageSize, k) == targets[..MinInt(pageSize * k, |targets|)]
  {
    if k > 0 {
      PagesPrefix(targets, pageSize, k - 1);
      var p := Paging(targets, pageSize, k);
      var lo, hi := pageSize * (k - 1), MinInt(pageSize * k, |targets|);
      assert p.current == k;
      PageStartInside(|targets|, pageSize, k);
      PrefixSplit(targets, lo, hi);
    }
  }

  /** Every page up to the last starts inside the list. */
  lemma PageStartInside(n: nat, pageSize: nat, k: nat)
    requires pageSize >= 1 && 1 <= k <= PageMax(n, pageSize)
    ensures pageSize * (k - 1) <= n
  {
    if k == 1 {
      assert pageSize * 0 == 0;
    } else {
      PageCount(n, pageSize);
      MulMonotone(pageSize, k - 1, (n - 1) / pageSize);
    }
  }

  lemma PrefixSplit<T>(s: seq<T>, lo: int, hi: int)
    requires 0 <= lo <= hi <= |s|
    ensures s[..hi] == s[..lo] + s[lo..hi]
  {
  }

  /** Showing every page in turn shows the whole list, each item once and in order. */
  lemma PagesCover<T>(targets: seq<T>, pageSize: nat)
    requires pageSize >= 1
    ensures Pages(targets, pageSize, PageMax(|targets|, pageSize)) == targets
  {
    var m := PageMax(|targets|, pageSize);
    PagesPrefix(targets, pageSize, m);
    var p := Paging(targets, pageSize, 1);
    assert MinInt(pageSize * m, |targets|) == |targets|;
  }

  // ---------------------------------------------------------------------------------------
  // JSON-safe values
  // ---------------------------------------------------------------------------------------

  /**
   * The Python values handlers return: `None`, booleans, integers, strings, `datetime`s,
   * `ObjectId`s (by their hexadecimal text), lists and dictionaries (their entries in
   * insertion order).
   */
  datatype PyValue =
    | Null
    | Bool(b: bool)
    | Int(i: int)
    | Str(s: string)
    | DateTime(t: Instant)
    | ObjectId(hex: string)
    | List(items: seq<PyValue>)
    | Dict(entries: seq<(string, PyValue)>)

  /** The keys of a dictionary's entries are distinct, as in every Python `dict`. */
  predicate UniqueKeys(es: seq<(string, PyValue)>) {
    forall i, j :: 0 <= i < j < |es| ==> es[i].0 != es[j].0
  }

  /** Every `datetime` inside `v` is one Python can hold: a valid day of years 1 to 9999. */
  predicate Representable(v: PyValue) {
    match v
    case DateTime(t) => ValidInstant(t) && 1 <= t.date.year <= 9999
    case List(xs) => forall i :: 0 <= i < |xs| ==> Representable(xs[i])
    case Dict(es) => forall i :: 0 <= i < |es| ==> Representable(es[i].1)
    case _ => true
  }

  /** A value `json.dumps` accepts: no `datetime` and no `ObjectId` anywhere, and dictionaries with distinct keys. */
  predicate JsonSafe(v: PyValue) {
    match v
    case DateTime(_) => false
    case ObjectId(_) => false
    case List(xs) => forall i :: 0 <= i < |xs| ==> JsonSafe(xs[i])
    case Dict(es) => UniqueKeys(es) && forall i :: 0 <= i < |es| ==> JsonSafe(es[i].1)
    case _ => true
  }

  /** `strftime('%Y-%m-%d')`. */
  function DateText(d: Date): (s: string)
    requires Valid(d) && 1 <= d.year <= 9999
    ensures |s| == 10 && s[4] == '-' && s[7] == '-'
  {
    Digits(d.year, 4) + "-" + Digits(d.month, 2) + "-" + Digits(d.day, 2)
  }

  /** `strftime('%Y-%m-%d %H:%M:%S')`. */
  function DateTimeText(t: Instant): (s: string)
    requires ValidInstant(t) && 1 <= t.date.year <= 9999
    ensures |s| == 19 && s[..10] == DateText(t.date) && s[10] == ' ' && s[13] == ':' && s[16] == ':'
  {
    DateText(t.date) + " " + Digits(t.second / 3600, 2) + ":" + Digits(t.second % 3600 / 60, 2) + ":"
      + Digits(t.second % 60, 2)
  }

  /** Every value held in the entries is JSON-safe. */
  predicate ValuesSafe(es: seq<(string, PyValue)>) {
    forall i :: 0 <= i < |es| ==> JsonSafe(es[i].1)
  }

  /** `n.get(k)`: the value stored under `k`, if any. */
  function Lookup(es: seq<(string, PyValue)>, k: string): Option<PyValue> {
    if es == [] then None
    else if es[|es| - 1].0 == k then Some(es[|es| - 1].1)
    else Lookup(es[..|es| - 1], k)
  }

  /** With distinct keys, each key finds its own entry. */
  lemma {:induction false} LookupFound(es: seq<(string, PyValue)>, i: nat)
    requires UniqueKeys(es) && i < |es|
    ensures Lookup(es, es[i].0) == Some(es[i].1)
  {
    if i < |es| - 1 {
      LookupFound(es[..|es| - 1], i);
    }
  }

  /** A key no entry carries finds nothing. */
  lemma {:induction false} LookupMissing(es: seq<(string, PyValue)>, k: string)
    requires forall i :: 0 <= i < |es| ==> es[i].0 != k
    ensures Lookup(es, k).None?
  {
    if es != [] {
      LookupMissing(es[..|es| - 1], k);
    }
  }

  /** A key that finds something is carried by some entry. */
  lemma {:induction false} LookupPresent(es: seq<(string, PyValue)>, k: string) returns (i: nat)
    requires Lookup(es, k).Some?
    ensures i < |es| && es[i].0 == k
  {
    if es[|es| - 1].0 == k {
      i := |es| - 1;
    } else {
      i := LookupPresent(es[..|es| - 1], k);
    }
  }

  /** `n[k] = v`: an existing key keeps its place and takes the new value, a new key goes last. */
  function Assign(es: seq<(string, PyValue)>, k: string, v: PyValue): (r: seq<(string, PyValue)>)
    requires UniqueKeys(es)
    ensures UniqueKeys(r)
    ensures Lookup(r, k) == Some(v)
    ensures forall x :: x != k ==> Lookup(r, x) == Lookup(es, x)
    ensures (forall i :: 0 <= i < |es| ==> es[i].0 != k) ==> r == es + [(k, v)]
    ensures (exists i :: 0 <= i < |es| && es[i].0 == k) ==> |r| == |es|
    ensures ValuesSafe(es) && JsonSafe(v) ==> ValuesSafe(r)
  {
    if i :| 0 <= i < |es| && es[i].0 == k then
      var r := es[i := (k, v)];
      assert UniqueKeys(r);
      LookupFound(r, i);
      forall x | x != k
        ensures Lookup(r, x) == Lookup(es, x)
      {
        if j :| 0 <= j < |es| && es[j].0 == x {
          LookupFound(r, j);
          LookupFound(es, j);
        } else {
          LookupMissing(es, x);
          LookupMissing(r, x);
        }
      }
      r
    else
      var r := es + [(k, v)];
      assert r[..|es|] == es;
      assert UniqueKeys(r);
      r
  }

  /**
   * `adjust_to_json(d)`: dictionaries and lists are rebuilt with their values adjusted, a
   * `datetime` becomes its text, an `ObjectId` its hexadecimal string, and anything else is
   * returned as it is.
   */
  function Adjust(v: PyValue): PyValue
    requires Representable(v)
    decreases v, 2
  {
    match v
    case Dict(es) => Dict(AdjustEntries(v, |es|))
    case List(xs) => List(AdjustItems(v, |xs|))
    case DateTime(t) => Str(DateTimeText(t))
    case ObjectId(hex) => Str(hex)
    case _ => v
  }

  /** The keys under which the entry `k: x` is shown. */
  function ShownAt(k: string, x: PyValue): seq<string> {
    if x.DateTime? then [k, k + "_Date", k + "_DateTime"] else [k]
  }

  /** The loop's three assignments for a `datetime` value `t` under `k`. */
  function StampDate(acc: seq<(string, PyValue)>, k: string, t: Instant): (r: seq<(string, PyValue)>)
    requires UniqueKeys(acc) && ValidInstant(t) && 1 <= t.date.year <= 9999
    ensures UniqueKeys(r)
    ensures Lookup(r, k) == Some(Str(DateText(t.date)))
    ensures Lookup(r, k + "_Date") == Some(Str(DateText(t.date)))
    ensures Lookup(r, k + "_DateTime") == Some(Str(DateTimeText(t)))
    ensures forall b :: b != k && b != k + "_Date" && b != k + "_DateTime" ==> Lookup(r, b) == Lookup(acc, b)
    ensures ValuesSafe(acc) ==> ValuesSafe(r)
  {
    Companions(k, k);
    var acc1 := Assign(acc, k + "_Date", Str(DateText(t.date)));
    var acc2 := Assign(acc1, k + "_DateTime", Str(DateTimeText(t)));
    Assign(acc2, k, Str(DateText(t.date)))
  }

  /** One pass of the loop over the keys: the entry `k: x` written into the new dictionary. */
  function Put(acc: seq<(string, PyValue)>, k: string, x: PyValue): (r: seq<(string, PyValue)>)
    requires UniqueKeys(acc) && Representable(x)
    ensures UniqueKeys(r)
    ensures forall b :: b !in ShownAt(k, x) ==> Lookup(r, b) == Lookup(acc, b)
    decreases x, 3
  {
    if x.DateTime? then StampDate(acc, k, x.t) else Assign(acc, k, Adjust(x))
  }

  /** The new dictionary after the loop has visited the first `n` keys of `d`. */
  function AdjustEntries(d: PyValue, n: nat): (r: seq<(string, PyValue)>)
    requires d.Dict? && Representable(d) && n <= |d.entries|
    ensures UniqueKeys(r)
    decreases d, 1, n
  {
    if n == 0 then []
    else
      assert d.entries[n - 1] in d.entries;
      Put(AdjustEntries(d, n - 1), d.entries[n - 1].0, d.entries[n - 1].1)
  }

  /** The new list after the loop has visited the first `n` items of `l`. */
  function AdjustItems(l: PyValue, n: nat): (r: seq<PyValue>)
    requires l.List? && Representable(l) && n <= |l.items|
    ensures |r| == n
    ensures forall i :: 0 <= i < n ==> r[i] == Adjust(l.items[i])
    decreases l, 1, n
  {
    if n == 0 then []
    else
      assert l.items[n - 1] in l.items;
      AdjustItems(l, n - 1) + [Adjust(l.items[n - 1])]
  }

  /**
   * What the rebuilt dictionary holds for the entry `k: x` of the original: for a `datetime`,
   * its date under `k` and `k_Date` and its date and time under `k_DateTime`; for any other
   * value, that value adjusted under `k`.
   */
  ghost predicate Shown(out: seq<(string, PyValue)>, k: string, x: PyValue)
    requires Representable(x)
  {
    match x
    case DateTime(t) =>
      && Lookup(out, k) == Some(Str(DateText(t.date)))
      && Lookup(out, k + "_Date") == Some(Str(DateText(t.date)))
      && Lookup(out, k + "_DateTime") == Some(Str(DateTimeText(t)))
    case _ => Lookup(out, k) == Some(Adjust(x))
  }

  /** No key of the dictionary is the `_Date` or `_DateTime` companion of a `datetime` key. */
  ghost predicate NoClash(es: seq<(string, PyValue)>) {
    forall i, j :: 0 <= i < |es| && 0 <= j < |es| && es[j].1.DateTime? ==>
      es[i].0 != es[j].0 + "_Date" && es[i].0 != es[j].0 + "_DateTime"
  }

  /** Distinct keys have distinct companions, and no `_Date` companion is a `_DateTime` one. */
  lemma Companions(a: string, b: string)
    ensures a != b ==> a + "_Date" != b + "_Date" && a + "_DateTime" != b + "_DateTime"
    ensures a + "_Date" != b + "_DateTime"
    ensures a != a + "_Date" && a != a + "_DateTime"
  {
    assert (a + "_Date")[..|a|] == a && (b + "_Date")[..|b|] == b;
    assert (a + "_DateTime")[..|a|] == a && (b + "_DateTime")[..|b|] == b;
    var x, y := a + "_Date", b + "_DateTime";
    assert x[|x| - 4] == 'D' && y[|y| - 4] == 'T';
  }

  /** The entry written last shows itself. */
  lemma PutShown(acc: seq<(string, PyValue)>, k: string, x: PyValue)
    requires UniqueKeys(acc) && Representable(x)
    ensures Shown(Put(acc, k, x), k, x)
  {
  }

  /** Two entries with different keys, neither clashing with the other's companions, are shown under different keys. */
  lemma ShownApart(k: string, x: PyValue, k1: string, x1: PyValue)
    requires k != k1
    requires x.DateTime? ==> k1 != k + "_Date" && k1 != k + "_DateTime"
    requires x1.DateTime? ==> k != k1 + "_Date" && k != k1 + "_DateTime"
    ensures forall b :: b in ShownAt(k, x) ==> b !in ShownAt(k1, x1)
  {
    Companions(k, k1);
    Companions(k1, k);
  }

  /** A later entry's assignments leave the keys an earlier entry is shown under alone. */
  lemma ShownKept(acc: seq<(string, PyValue)>, out: seq<(string, PyValue)>, k: string, x: PyValue)
    requires Representable(x) && Shown(acc, k, x)
    requires forall b :: b in ShownAt(k, x) ==> Lookup(out, b) == Lookup(acc, b)
    ensures Shown(out, k, x)
  {
    assert k in ShownAt(k, x);
    if x.DateTime? {
      assert k + "_Date" in ShownAt(k, x) && k + "_DateTime" in ShownAt(k, x);
    }
  }

  /**
   * With distinct keys and no key clashing with a companion, every entry of the original
   * dictionary is shown in the rebuilt one as `adjust_to_json` promises.
   */
  lemma {:induction false} EntriesShown(d: PyValue, n: nat, j: nat)
    requires d.Dict? && Representable(d) && UniqueKeys(d.entries) && NoClash(d.entries)
    requires j < n <= |d.entries|
    ensures d.entries[j] in d.entries
    ensures Shown(AdjustEntries(d, n), d.entries[j].0, d.entries[j].1)
  {
    var es := d.entries;
    var k, x := es[j].0, es[j].1;
    var k1, x1 := es[n - 1].0, es[n - 1].1;
    assert es[n - 1] in es && es[j] in es;
    var acc := AdjustEntries(d, n - 1);
    assert AdjustEntries(d, n) == Put(acc, k1, x1);
    if j == n - 1 {
      PutShown(acc, k1, x1);
    } else {
      EntriesShown(d, n - 1, j);
      ShownApart(k, x, k1, x1);
      ShownKept(acc, Put(acc, k1, x1), k, x);
    }
  }

  /** The rebuilt dictionary holds no key but the original keys and their companions. */
  lemma {:induction false} EntriesKeys(d: PyValue, n: nat, key: string) returns (i: nat)
    requires d.Dict? && Representable(d) && n <= |d.entries|
    requires Lookup(AdjustEntries(d, n), key).Some?
    ensures i < n && key in ShownAt(d.entries[i].0, d.entries[i].1)
  {
    assert n > 0;
    var es := d.entries;
    var k1, x1 := es[n - 1].0, es[n - 1].1;
    assert es[n - 1] in es;
    var acc := AdjustEntries(d, n - 1);
    assert AdjustEntries(d, n) == Put(acc, k1, x1);
    if key in ShownAt(k1, x1) {
      i := n - 1;
    } else {
      i := EntriesKeys(d, n - 1, key);
    }
  }

  /** `adjust_to_json` on a dictionary, read key by key. */
  lemma AdjustDict(d: PyValue)
    requires d.Dict? && Representable(d) && UniqueKeys(d.entries) && NoClash(d.entries)
    ensures Adjust(d).Dict?
    ensures forall j :: 0 <= j < |d.entries| ==> Shown(Adjust(d).entries, d.entries[j].0, d.entries[j].1)
    ensures forall key :: Lookup(Adjust(d).entries, key).Some? ==>
      exists i :: 0 <= i < |d.entries| && key in ShownAt(d.entries[i].0, d.entries[i].1)
  {
    forall j | 0 <= j < |d.entries|
      ensures Shown(Adjust(d).entries, d.entries[j].0, d.entries[j].1)
    {
      EntriesShown(d, |d.entries|, j);
    }
    forall key | Lookup(Adjust(d).entries, key).Some?
      ensures exists i :: 0 <= i < |d.entries| && key in ShownAt(d.entries[i].0, d.entries[i].1)
    {
      var i := EntriesKeys(d, |d.entries|, key);
    }
  }

  /** What `adjust_to_json` returns can be given to `json.dumps`. */
  lemma {:induction false} AdjustSafe(v: PyValue)
    requires Representable(v)
    ensures JsonSafe(Adjust(v))
    decreases v, 2
  {
    match v
    case Dict(es) =>
      EntriesSafe(v, |es|);
    case List(xs) =>
      forall i | 0 <= i < |xs| ensures JsonSafe(Adjust(v).items[i]) {
        assert xs[i] in xs;
        AdjustSafe(xs[i]);
      }
    case _ =>
  }

  lemma {:induction false} EntriesSafe(d: PyValue, n: nat)
    requires d.Dict? && Representable(d) && n <= |d.entries|
    ensures ValuesSafe(AdjustEntries(d, n))
    decreases d, 1, n
  {
    if n > 0 {
      var es := d.entries;
      var k1, x1 := es[n - 1].0, es[n - 1].1;
      assert es[n - 1] in es;
      EntriesSafe(d, n - 1);
      PutSafe(AdjustEntries(d, n - 1), k1, x1);
    }
  }

  /** Putting any entry into a safe dictionary keeps it safe. */
  lemma {:induction false} PutSafe(acc: seq<(string, PyValue)>, k: string, x: PyValue)
    requires UniqueKeys(acc) && ValuesSafe(acc) && Representable(x)
    ensures ValuesSafe(Put(acc, k, x))
    decreases x, 3
  {
    if !x.DateTime? {
      AdjustSafe(x);
    }
  }

  lemma SafeRepresentable(v: PyValue)
    requires JsonSafe(v)
    ensures Representable(v)
  {
  }

  /** A value that is already JSON-safe comes back unchanged. */
  lemma {:induction false} AdjustFixesSafe(v: PyValue)
    requires JsonSafe(v) && Representable(v)
    ensures Adjust(v) == v
    decreases v, 2
  {
    match v
    case Dict(es) =>
      EntriesFixSafe(v, |es|);
      assert es[..|es|] == es;
    case List(xs) =>
      forall i | 0 <= i < |xs| ensures Adjust(v).items[i] == xs[i] {
        assert xs[i] in xs;
        AdjustFixesSafe(xs[i]);
      }
    case _ =>
  }

  lemma {:induction false} EntriesFixSafe(d: PyValue, n: nat)
    requires d.Dict? && JsonSafe(d) && Representable(d) && n <= |d.entries|
    ensures AdjustEntries(d, n) == d.entries[..n]
    decreases d, 1, n
  {
    if n > 0 {
      var es := d.entries;
      var k1, x1 := es[n - 1].0, es[n - 1].1;
      assert es[n - 1] in es;
      EntriesFixSafe(d, n - 1);
      var acc := es[..n - 1];
      assert forall i :: 0 <= i < |acc| ==> acc[i] == es[i] && acc[i].0 != k1;
      assert JsonSafe(x1) && Representable(x1);
      PutFresh(acc, k1, x1);
      assert es[..n] == acc + [(k1, x1)];
    }
  }

  /** Putting a safe value under a new key appends the entry as it is. */
  lemma {:induction false} PutFresh(acc: seq<(string, PyValue)>, k: string, x: PyValue)
    requires UniqueKeys(acc) && JsonSafe(x) && Representable(x)
    requires forall i :: 0 <= i < |acc| ==> acc[i].0 != k
    ensures Put(acc, k, x) == acc + [(k, x)]
    decreases x, 3
  {
    AdjustFixesSafe(x);
  }

  /** Adjusting twice is adjusting once. */
  lemma AdjustIdempotent(v: PyValue)
    requires Representable(v)
    ensures Representable(Adjust(v))
    ensures Adjust(Adjust(v)) == Adjust(v)
  {
    AdjustSafe(v);
    SafeRepresentable(Adjust(v));
    AdjustFixesSafe(Adjust(v));
  }
}
