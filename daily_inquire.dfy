/**
 * The bulk-data import of `task/daily_inquire.py`: reading the tab-separated files of the
 * patent office's daily update archive (`read_tsv`) and turning one management record, with
 * the matching holder and designated-class rows, into the update written on every registered
 * property of that number (`extract_and_import`).
 */
module DailyInquire {
  import opened Wrappers
  import opened Text
  import opened Dates
  import CommonUtil

  /** A record of a file: field name to field text, as the dictionary `read_tsv` yields. */
  type Record = map<string, string>

  /** A field that `strip()` empties, which `read_tsv` replaces by `None`: white space only. */
  predicate Blank(x: string) {
    AllSpace(x)
  }

  /** `rstrip` empties a string of white space. */
  lemma {:induction false} RStripSpaces(x: string)
    requires AllSpace(x)
    ensures RStrip(x) == []
  {
    if x != [] {
      RStripSpaces(x[..|x| - 1]);
    }
  }

  /** `Blank` is the source's test `x.strip() == ''`. */
  lemma BlankIsStripEmpty(x: string)
    ensures Blank(x) <==> Strip(x) == []
  {
    var r := RStrip(x);
    if Strip(x) == [] {
      assert AllSpace(r[..|r| - |LStrip(r)|]);
      assert r[..|r|] == r;
      assert x == r + x[|r|..];
    }
    if AllSpace(x) {
      RStripSpaces(x);
    }
  }

  // ---------------------------------------------------------------------------------------
  // One data line
  // ---------------------------------------------------------------------------------------

  /**
   * The record for a data line split at its tabs: every non-blank field under the header of
   * its column, untrimmed, a later column overwriting an earlier one of the same name. A
   * non-blank field in a column without a header raises IndexError; a blank one there is
   * skipped.
   */
  function Row(headers: seq<string>, fields: seq<string>): Result<Record, Exception>
  {
    if fields == [] then Ok(map[])
    else
      var i := |fields| - 1;
      var init := Row(headers, fields[..i]);
      if init.Err? || Blank(fields[i]) then init
      else if i >= |headers| then Err(IndexError)
      else Ok(init.value[headers[i] := fields[i]])
  }

  /** Once a prefix of the fields has raised, the rest of the line is never looked at. */
  lemma {:induction false} RowStopsAtError(headers: seq<string>, fields: seq<string>, k: nat)
    requires k <= |fields| && Row(headers, fields[..k]).Err?
    ensures Row(headers, fields) == Row(headers, fields[..k])
    decreases |fields| - k
  {
    if k < |fields| {
      var n := |fields| - 1;
      assert fields[..n][..k] == fields[..k];
      RowStopsAtError(headers, fields[..n], k);
    } else {
      assert fields[..k] == fields;
    }
  }

  /** The loop over the fields of one data line that fills `info`. */
  method MakeRecord(headers: seq<string>, fields: seq<string>) returns (r: Result<Record, Exception>)
    ensures r == Row(headers, fields)
  {
    var info: Record := map[];
    for i := 0 to |fields|
      invariant Row(headers, fields[..i]) == Ok(info)
    {
      assert fields[..i + 1][..i] == fields[..i];
      if !Blank(fields[i]) {
        if i >= |headers| {
          RowStopsAtError(headers, fields, i + 1);
          return Err(IndexError);
        }
        info := info[headers[i] := fields[i]];
      }
    }
    assert fields[..|fields|] == fields;
    return Ok(info);
  }

  /** The line raises exactly when a non-blank field has no header, and then with IndexError. */
  lemma {:induction false} RowError(headers: seq<string>, fields: seq<string>)
    ensures Row(headers, fields).Err? <==> exists i :: |headers| <= i < |fields| && !Blank(fields[i])
    ensures Row(headers, fields).Err? ==> Row(headers, fields).error == IndexError
  {
    if fields != [] {
      var n := |fields| - 1;
      RowError(headers, fields[..n]);
      assert forall i :: 0 <= i < n ==> fields[..n][i] == fields[i];
    }
  }

  /** The keys of a record are the headers of its non-blank fields. */
  lemma {:induction false} RowKeys(headers: seq<string>, fields: seq<string>)
    requires Row(headers, fields).Ok?
    ensures var m := Row(headers, fields).value;
      forall k :: k in m <==> exists i :: 0 <= i < |fields| && i < |headers| && headers[i] == k && !Blank(fields[i])
  {
    if fields != [] {
      var n := |fields| - 1;
      RowKeys(headers, fields[..n]);
      assert forall i :: 0 <= i < n ==> fields[..n][i] == fields[i];
    }
  }

  /** Among the fields under `k`, the ones from column `i` on are blank. */
  ghost predicate LastUnder(headers: seq<string>, fields: seq<string>, k: string, i: nat) {
    forall j :: i < j < |fields| && j < |headers| && headers[j] == k ==> Blank(fields[j])
  }

  /** Each key of a record holds the untrimmed text of the last non-blank field under it. */
  lemma {:induction false} RowValues(headers: seq<string>, fields: seq<string>)
    requires Row(headers, fields).Ok?
    ensures var m := Row(headers, fields).value;
      forall k :: k in m ==> exists i :: (0 <= i < |fields| && i < |headers| && headers[i] == k &&
        m[k] == fields[i] && LastUnder(headers, fields, k, i))
  {
    if fields != [] {
      var n := |fields| - 1;
      var init := fields[..n];
      RowValues(headers, init);
      var m0 := Row(headers, init).value;
      var m := Row(headers, fields).value;
      forall k | k in m
        ensures exists i :: (0 <= i < |fields| && i < |headers| && headers[i] == k &&
          m[k] == fields[i] && LastUnder(headers, fields, k, i))
      {
        if !Blank(fields[n]) && k == headers[n] {
          assert LastUnder(headers, fields, k, n);
        } else {
          var i :| 0 <= i < n && i < |headers| && headers[i] == k && m0[k] == init[i] &&
            LastUnder(headers, init, k, i);
          assert init[i] == fields[i];
          assert LastUnder(headers, fields, k, i) by {
            forall j | i < j < |fields| && j < |headers| && headers[j] == k
              ensures Blank(fields[j])
            {
              if j < n {
                assert init[j] == fields[j];
              }
            }
          }
        }
      }
    }
  }

  /** The last field of a non-empty line that does not end in the separator ends as the line does. */
  lemma {:induction false} SplitLast(s: string, sep: char)
    requires s != [] && s[|s| - 1] != sep
    ensures var r := Split(s, sep); r[|r| - 1] != [] && r[|r| - 1][|r[|r| - 1]| - 1] == s[|s| - 1]
    decreases |s|
  {
    var i := IndexOf(s, sep);
    if i < |s| {
      SplitLast(s[i + 1..], sep);
    }
  }

  /**
   * After `rstrip` the last field of a data line is never blank, so a line raises exactly when it
   * has more fields than the header line.
   */
  lemma TooManyFields(headers: seq<string>, raw: string)
    requires RStrip(raw) != []
    ensures var fields := Split(RStrip(raw), '\t');
      Row(headers, fields).Err? <==> |fields| > |headers|
  {
    var line := RStrip(raw);
    var fields := Split(line, '\t');
    SplitLast(line, '\t');
    var last := fields[|fields| - 1];
    assert !IsSpace(last[|last| - 1]);
    RowError(headers, fields);
  }

  // ---------------------------------------------------------------------------------------
  // A whole file
  // ---------------------------------------------------------------------------------------

  /**
   * What `read_tsv` has produced from the lines it has read: the header line's fields once one
   * is read, the records yielded so far, and the exception that ended the generator.
   */
  datatype Table = Table(headers: Option<seq<string>>, records: seq<Record>, error: Option<Exception>)

  /** The lines that `rstrip` does not empty are the ones `read_tsv` counts. */
  predicate Counted(line: string) {
    RStrip(line) != []
  }

  /**
   * `read_tsv` on the lines `readline` returns: blank lines are skipped, the first counted line
   * gives the headers and every later one yields its record, until one raises.
   */
  function Scan(lines: seq<string>): Table
  {
    if lines == [] then Table(None, [], None)
    else ScanLine(Scan(lines[..|lines| - 1]), lines[|lines| - 1])
  }

  /** One more line read: skipped when blank or after an error, the header when none was read yet, a record otherwise. */
  function ScanLine(t: Table, raw: string): Table {
    var line := RStrip(raw);
    if t.error.Some? || line == [] then t
    else if t.headers.None? then t.(headers := Some(Split(line, '\t')))
    else match Row(t.headers.value, Split(line, '\t'))
      case Ok(m) => t.(records := t.records + [m])
      case Err(e) => t.(error := Some(e))
  }

  lemma ScanSnoc(lines: seq<string>, x: string)
    ensures Scan(lines + [x]) == ScanLine(Scan(lines), x)
  {
    assert (lines + [x])[..|lines|] == lines;
  }

  /** The number of counted lines. */
  function CountedLines(lines: seq<string>): (n: nat)
    ensures n <= |lines|
  {
    if lines == [] then 0
    else CountedLines(lines[..|lines| - 1]) + if Counted(lines[|lines| - 1]) then 1 else 0
  }

  /** After the generator has raised, the lines that follow are never read. */
  lemma {:induction false} ScanStopsAtError(lines: seq<string>, k: nat)
    requires k <= |lines| && Scan(lines[..k]).error.Some?
    ensures Scan(lines) == Scan(lines[..k])
    decreases |lines| - k
  {
    if k < |lines| {
      var n := |lines| - 1;
      assert lines[..n][..k] == lines[..k];
      ScanStopsAtError(lines[..n], k);
    } else {
      assert lines[..k] == lines;
    }
  }

  /** The `readline` loop, with its line counter and header state. */
  method ReadTsv(lines: seq<string>) returns (t: Table)
    ensures t == Scan(lines)
  {
    var cnt := 0;
    var headers: seq<string> := [];
    var records: seq<Record> := [];
    var i := 0;
    while i < |lines|
      invariant 0 <= i <= |lines|
      invariant cnt == CountedLines(lines[..i])
      invariant Scan(lines[..i]) == Table(if cnt == 0 then None else Some(headers), records, None)
    {
      assert lines[..i + 1][..i] == lines[..i];
      var line := RStrip(lines[i]);
      if line != [] {
        if cnt == 0 {
          headers := Split(line, '\t');
        } else {
          var info := MakeRecord(headers, Split(line, '\t'));
          if info.Err? {
            ScanStopsAtError(lines, i + 1);
            return Table(Some(headers), records, Some(info.error));
          }
          records := records + [info.value];
        }
        cnt := cnt + 1;
      }
      i := i + 1;
    }
    assert lines[..i] == lines;
    return Table(if cnt == 0 then None else Some(headers), records, None);
  }

  /** A blank line anywhere in the file changes nothing. */
  lemma {:induction false} BlankLineIgnored(a: seq<string>, b: string, c: seq<string>)
    requires !Counted(b)
    ensures Scan(a + [b] + c) == Scan(a + c)
    decreases |c|
  {
    if c == [] {
      ScanSnoc(a, b);
      assert a + [b] + c == a + [b] && a + c == a;
    } else {
      var n := |c| - 1;
      BlankLineIgnored(a, b, c[..n]);
      ScanSnoc(a + [b] + c[..n], c[n]);
      ScanSnoc(a + c[..n], c[n]);
      assert a + [b] + c == (a + [b] + c[..n]) + [c[n]];
      assert a + c == (a + c[..n]) + [c[n]];
    }
  }

  /**
   * Until the generator raises, the header is read once there is a counted line and every
   * counted line after the first yields exactly one record.
   */
  lemma {:induction false} RecordCount(lines: seq<string>)
    requires Scan(lines).error.None?
    ensures Scan(lines).headers.Some? <==> CountedLines(lines) > 0
    ensures |Scan(lines).records| == if CountedLines(lines) == 0 then 0 else CountedLines(lines) - 1
  {
    if lines != [] {
      RecordCount(lines[..|lines| - 1]);
    }
  }

  /** Once read, the header stays as it is. */
  lemma {:induction false} HeadersKept(lines: seq<string>, k: nat)
    requires k <= |lines| && Scan(lines[..k]).headers.Some?
    ensures Scan(lines).headers == Scan(lines[..k]).headers
    decreases |lines| - k
  {
    if k < |lines| {
      var n := |lines| - 1;
      assert lines[..n][..k] == lines[..k];
      HeadersKept(lines[..n], k);
    } else {
      assert lines[..k] == lines;
    }
  }

  /** Lines that are all blank produce nothing. */
  lemma {:induction false} BlankFile(lines: seq<string>)
    requires forall i :: 0 <= i < |lines| ==> !Counted(lines[i])
    ensures Scan(lines) == Table(None, [], None)
  {
    if lines != [] {
      var n := |lines| - 1;
      assert forall i :: 0 <= i < n ==> lines[..n][i] == lines[i];
      BlankFile(lines[..n]);
    }
  }

  /** The header line is the first counted line, `rstrip`ped and split at its tabs. */
  lemma {:induction false} HeaderIsFirstCounted(lines: seq<string>, j: nat)
    requires j < |lines| && Counted(lines[j])
    requires forall i :: 0 <= i < j ==> !Counted(lines[i])
    ensures Scan(lines).headers == Some(Split(RStrip(lines[j]), '\t'))
  {
    var before := lines[..j];
    var upto := lines[..j + 1];
    assert forall i :: 0 <= i < j ==> before[i] == lines[i];
    BlankFile(before);
    assert upto[..j] == before && upto[j] == lines[j];
    assert Scan(upto).headers == Some(Split(RStrip(lines[j]), '\t'));
    HeadersKept(lines, j + 1);
  }

  /** The record a counted line yields against `headers`. */
  ghost predicate RowOfLine(headers: seq<string>, line: string, m: Record) {
    Counted(line) && Row(headers, Split(RStrip(line), '\t')) == Ok(m)
  }

  /**
   * Every record yielded is the record of one of the counted lines, built against the
   * header line.
   */
  lemma {:induction false} RecordsAreRows(lines: seq<string>)
    ensures var t := Scan(lines);
      t.records != [] ==> (t.headers.Some? &&
        forall k :: 0 <= k < |t.records| ==>
          exists j :: 0 <= j < |lines| && RowOfLine(t.headers.value, lines[j], t.records[k]))
  {
    if lines != [] {
      var n := |lines| - 1;
      var t0 := Scan(lines[..n]);
      var t := Scan(lines);
      RecordsAreRows(lines[..n]);
      if t.records != [] {
        forall k | 0 <= k < |t.records|
          ensures exists j :: 0 <= j < |lines| && RowOfLine(t.headers.value, lines[j], t.records[k])
        {
          if k < |t0.records| {
            var j :| 0 <= j < n && RowOfLine(t0.headers.value, lines[..n][j], t0.records[k]);
            assert lines[..n][j] == lines[j];
          } else {
            assert RowOfLine(t.headers.value, lines[n], t.records[k]);
          }
        }
      }
    }
  }

  // ---------------------------------------------------------------------------------------
  // Field values
  // ---------------------------------------------------------------------------------------

  /** `d.strftime('%Y%m%d')` for a valid date of a four-digit year. */
  function Ymd(d: Date): (s: string)
    requires Valid(d) && 1 <= d.year <= 9999
    ensures |s| == 8 && AllDigits(s)
  {
    Digits(d.year, 4) + Digits(d.month, 2) + Digits(d.day, 2)
  }

  /**
   * `datetime.strptime(v, '%Y%m%d')` on eight digits: year, month and day must form a date
   * Python's `datetime` accepts; anything else raises ValueError.
   */
  function ParseYmd(v: string): (r: Result<Date, Exception>)
    ensures r.Ok? ==> Valid(r.value) && 1 <= r.value.year <= 9999
    ensures r.Err? ==> r.error == ValueError
  {
    if |v| == 8 && AllDigits(v) then
      assert AllDigits(v[..4]) && AllDigits(v[4..6]) && AllDigits(v[6..]);
      var d := Date(DigitsValue(v[..4]), DigitsValue(v[4..6]), DigitsValue(v[6..]));
      ValueRoundTrip(v[..4]);
      if Valid(d) && d.year >= 1 then Ok(d) else Err(ValueError)
    else Err(ValueError)
  }

  /** A parsed date formats back to the text it was read from. */
  lemma ParsedYmd(v: string)
    requires ParseYmd(v).Ok?
    ensures Ymd(ParseYmd(v).value) == v
  {
    var y, m, dd := v[..4], v[4..6], v[6..];
    assert ParseYmd(v).value == Date(DigitsValue(y), DigitsValue(m), DigitsValue(dd));
    YmdOfParts(y, m, dd);
    assert v == y + m + dd;
  }

  /** Digit runs of widths 4, 2 and 2 that spell a valid date format back to themselves. */
  lemma YmdOfParts(y: string, m: string, dd: string)
    requires |y| == 4 && |m| == 2 && |dd| == 2 && AllDigits(y) && AllDigits(m) && AllDigits(dd)
    requires Valid(Date(DigitsValue(y), DigitsValue(m), DigitsValue(dd))) && 1 <= DigitsValue(y) <= 9999
    ensures Ymd(Date(DigitsValue(y), DigitsValue(m), DigitsValue(dd))) == y + m + dd
  {
    ValueRoundTrip(y);
    ValueRoundTrip(m);
    ValueRoundTrip(dd);
  }

  /** Every date of a four-digit year is read back from its `yyyymmdd` text. */
  lemma YmdRoundTrip(d: Date)
    requires Valid(d) && 1 <= d.year <= 9999
    ensures ParseYmd(Ymd(d)) == Ok(d)
  {
    var v := Ymd(d);
    assert v[..4] == Digits(d.year, 4) && v[4..6] == Digits(d.month, 2) && v[6..] == Digits(d.day, 2);
    DigitsRoundTrip(d.year, 4);
    DigitsRoundTrip(d.month, 2);
    DigitsRoundTrip(d.day, 2);
  }

  /** `int(v)`: the integer the text spells, or `ValueError`. */
  function ParseInt(v: string): (r: Result<int, Exception>)
    ensures r.Ok? ==> Spells(Strip(v), r.value)
    ensures r.Err? ==> r.error == ValueError && IntOf(v).None?
  {
    match IntOf(v)
    case Some(n) => Ok(n)
    case None => Err(ValueError)
  }

  /** `int()` reads back any number written with at least as many digits as it needs. */
  lemma IntRoundTrip(n: int, w: nat)
    requires 1 <= w && Abs(n) < Pow10(w)
    ensures ParseInt((if n < 0 then "-" else "") + Digits(Abs(n), w)) == Ok(n)
  {
    IntOfDigits(n, w);
  }

  /** A date field of the management record is present, not the all-zero placeholder, and read. */
  ghost predicate DateFrom(info: Record, key: string, o: Option<Date>) {
    && (o.None? <==> key !in info || info[key] == "00000000")
    && (o.Some? ==> Valid(o.value) && 1 <= o.value.year <= 9999 && Ymd(o.value) == info[key])
  }

  /** A count field is present, not the placeholder `zero`, and its stripped text spells the count. */
  ghost predicate CountFrom(info: Record, key: string, zero: string, o: Option<int>) {
    && (o.None? <==> key !in info || info[key] == zero)
    && (o.Some? ==> Spells(Strip(info[key]), o.value))
  }

  /** A date field: absent when the key is missing or holds the placeholder `00000000`. */
  function DateField(info: Record, key: string): (r: Result<Option<Date>, Exception>)
    ensures r.Ok? ==> DateFrom(info, key, r.value)
    ensures r.Err? <==> key in info && info[key] != "00000000" && ParseYmd(info[key]).Err?
    ensures r.Err? ==> r.error == ValueError
  {
    if key !in info || info[key] == "00000000" then Ok(None)
    else match ParseYmd(info[key])
      case Ok(d) => ParsedYmd(info[key]); Ok(Some(d))
      case Err(e) => Err(e)
  }

  /** A count field: absent when the key is missing or holds the placeholder `zero`. */
  function CountField(info: Record, key: string, zero: string): (r: Result<Option<int>, Exception>)
    ensures r.Ok? ==> CountFrom(info, key, zero, r.value)
    ensures r.Err? <==> key in info && info[key] != zero && ParseInt(info[key]).Err?
    ensures r.Err? ==> r.error == ValueError
  {
    if key !in info || info[key] == zero then Ok(None)
    else match ParseInt(info[key])
      case Ok(n) => Ok(Some(n))
      case Err(e) => Err(e)
  }

  // ---------------------------------------------------------------------------------------
  // The update for one management record
  // ---------------------------------------------------------------------------------------

  /** One entry of `update['Holders']`: the applicant id and, when given, the name. */
  datatype Holder = Holder(id: string, name: Option<string>)

  /** The fields `extract_and_import` collects for a registration. */
  datatype Update = Update(
    expiration: Option<Date>,
    limit: Option<Date>,
    paidYears: Option<int>,
    disappearance: Option<Date>,
    application: Option<Date>,
    registration: Option<Date>,
    claims: Option<int>,
    subject: Option<string>,
    holders: Option<seq<Holder>>,
    classes: Option<seq<string>>,
    numberOfClasses: Option<int>)

  /**
   * The fields read from the management record itself, the title passed through the
   * full-width to half-width conversion `zenToHan`; a present, non-placeholder date or count
   * that does not parse raises ValueError.
   */
  function Fields(info: Record, zenToHan: string -> string): Result<Update, Exception>
  {
    var expiration := DateField(info, "conti_prd_expire_ymd");
    var limit := DateField(info, "next_pen_pymnt_tm_lmt_ymd");
    var paid := CountField(info, "last_pymnt_yearly", "00");
    var disappearance := DateField(info, "right_disppr_year_month_day");
    var application := DateField(info, "app_year_month_day");
    var registration := DateField(info, "set_reg_year_month_day");
    var claims := CountField(info, "invent_cnt_claim_cnt_cls_cnt", "000");
    if expiration.Err? || limit.Err? || paid.Err? || disappearance.Err? || application.Err? ||
       registration.Err? || claims.Err?
    then Err(ValueError)
    else
      var subject := if "invent_title_etc" in info then Some(zenToHan(info["invent_title_etc"])) else None;
      Ok(Update(expiration.value, limit.value, paid.value, disappearance.value, application.value,
        registration.value, claims.value, subject, None, None, None))
  }

  /**
   * The record's fields raise exactly when a present, non-placeholder date or count does not
   * parse, and then with ValueError.
   */
  lemma FieldsError(info: Record, zenToHan: string -> string)
    ensures Fields(info, zenToHan).Err? <==>
      || DateField(info, "conti_prd_expire_ymd").Err?
      || DateField(info, "next_pen_pymnt_tm_lmt_ymd").Err?
      || CountField(info, "last_pymnt_yearly", "00").Err?
      || DateField(info, "right_disppr_year_month_day").Err?
      || DateField(info, "app_year_month_day").Err?
      || DateField(info, "set_reg_year_month_day").Err?
      || CountField(info, "invent_cnt_claim_cnt_cls_cnt", "000").Err?
    ensures Fields(info, zenToHan).Err? ==> Fields(info, zenToHan).error == ValueError
  {
  }

  /**
   * Each date and count of the update is absent exactly when its key is missing or holds the
   * all-zero placeholder, and otherwise is what the field's text spells; the title goes
   * through `zenToHan`.
   */
  lemma FieldsValues(info: Record, zenToHan: string -> string)
    requires Fields(info, zenToHan).Ok?
    ensures var u := Fields(info, zenToHan).value;
      && DateFrom(info, "conti_prd_expire_ymd", u.expiration)
      && DateFrom(info, "next_pen_pymnt_tm_lmt_ymd", u.limit)
      && CountFrom(info, "last_pymnt_yearly", "00", u.paidYears)
      && DateFrom(info, "right_disppr_year_month_day", u.disappearance)
      && DateFrom(info, "app_year_month_day", u.application)
      && DateFrom(info, "set_reg_year_month_day", u.registration)
      && CountFrom(info, "invent_cnt_claim_cnt_cls_cnt", "000", u.claims)
      && u.subject == (if "invent_title_etc" in info then Some(zenToHan(info["invent_title_etc"])) else None)
      && u.holders.None? && u.classes.None? && u.numberOfClasses.None?
  {
  }

  /**
   * Whether a row of the holder or class file belongs to the record: same `law_cd`, then same
   * `reg_num`, the keys read in that order, a missing one raising KeyError.
   */
  function SameRight(row: Record, info: Record): (r: Result<bool, Exception>)
    ensures r.Err? <==> ("law_cd" !in row || "law_cd" !in info ||
      (row["law_cd"] == info["law_cd"] && ("reg_num" !in row || "reg_num" !in info)))
    ensures r.Err? ==> r.error == KeyError
    ensures r.Ok? ==> (r.value <==> row["law_cd"] == info["law_cd"] && row["reg_num"] == info["reg_num"])
  {
    if "law_cd" !in row || "law_cd" !in info then Err(KeyError)
    else if row["law_cd"] != info["law_cd"] then Ok(false)
    else if "reg_num" !in row || "reg_num" !in info then Err(KeyError)
    else Ok(row["reg_num"] == info["reg_num"])
  }

  /** The holder a matching row with an applicant id gives. */
  function HolderOf(row: Record, zenToHan: string -> string): Holder
    requires "right_person_appl_id" in row
  {
    Holder(row["right_person_appl_id"],
      if "right_person_name" in row then Some(zenToHan(row["right_person_name"])) else None)
  }

  /**
   * The holder loop over the rows it reads: the holders of the matching rows in order, `None`
   * once a matching row has no applicant id (the list is thrown away and the loop left), or
   * the KeyError of a row it cannot compare.
   */
  function HolderScan(rows: seq<Record>, info: Record, zenToHan: string -> string): Result<Option<seq<Holder>>, Exception>
  {
    if rows == [] then Ok(Some([]))
    else match SameRight(rows[0], info)
      case Err(e) => Err(e)
      case Ok(same) =>
        if !same then HolderScan(rows[1..], info, zenToHan)
        else if "right_person_appl_id" !in rows[0] then Ok(None)
        else match HolderScan(rows[1..], info, zenToHan)
          case Ok(Some(hs)) => Ok(Some([HolderOf(rows[0], zenToHan)] + hs))
          case other => other
  }

  /** The holders collected so far in front of what the rest of the loop gives. */
  function PrependHolders(acc: seq<Holder>, rest: Result<Option<seq<Holder>>, Exception>): Result<Option<seq<Holder>>, Exception> {
    match rest
      case Ok(Some(hs)) => Ok(Some(acc + hs))
      case _ => rest
  }

  /** Prepending nothing, and prepending in two steps. */
  lemma PrependHoldersSteps(acc: seq<Holder>, h: Holder, rest: Result<Option<seq<Holder>>, Exception>)
    ensures PrependHolders([], rest) == rest
    ensures PrependHolders(acc, PrependHolders([h], rest)) == PrependHolders(acc + [h], rest)
  {
    if rest.Ok? && rest.value.Some? {
      var hs := rest.value.value;
      assert [] + hs == hs;
      assert acc + ([h] + hs) == (acc + [h]) + hs;
    }
  }

  /**
   * `update['Holders']` for a holder file (`None` when the archive has none): set only to a
   * non-empty list; the file's own read error surfaces once its yielded rows are used up,
   * unless the loop was left early.
   */
  function HoldersOf(file: Option<Table>, info: Record, zenToHan: string -> string): (r: Result<Option<seq<Holder>>, Exception>)
    ensures r.Ok? && r.value.Some? ==> r.value.value != []
  {
    if file.None? then Ok(None)
    else match HolderScan(file.value.records, info, zenToHan)
      case Err(e) => Err(e)
      case Ok(None) => Ok(None)
      case Ok(Some(hs)) =>
        if file.value.error.Some? then Err(file.value.error.value)
        else if hs == [] then Ok(None)
        else Ok(Some(hs))
  }

  /** The holder loop, with its `break`. */
  method CollectHolders(file: Option<Table>, info: Record, zenToHan: string -> string)
    returns (r: Result<Option<seq<Holder>>, Exception>)
    ensures r == HoldersOf(file, info, zenToHan)
  {
    if file.None? {
      return Ok(None);
    }
    var rows := file.value.records;
    var holders: seq<Holder> := [];
    var stopped := false;
    var i := 0;
    assert rows[0..] == rows;
    PrependHoldersSteps([], Holder([], None), HolderScan(rows, info, zenToHan));
    while i < |rows| && !stopped
      invariant 0 <= i <= |rows|
      invariant !stopped ==> HolderScan(rows, info, zenToHan) == PrependHolders(holders, HolderScan(rows[i..], info, zenToHan))
      invariant stopped ==> HolderScan(rows, info, zenToHan) == Ok(None) && holders == []
      decreases |rows| - i, if stopped then 0 else 1
    {
      assert rows[i..][0] == rows[i] && rows[i..][1..] == rows[i + 1..];
      var same := SameRight(rows[i], info);
      if same.Err? {
        return Err(same.error);
      }
      if same.value {
        if "right_person_appl_id" !in rows[i] {
          holders := [];
          stopped := true;
        } else {
          PrependHoldersSteps(holders, HolderOf(rows[i], zenToHan), HolderScan(rows[i + 1..], info, zenToHan));
          holders := holders + [HolderOf(rows[i], zenToHan)];
          i := i + 1;
        }
      } else {
        i := i + 1;
      }
    }
    if !stopped {
      assert rows[i..] == [];
      assert holders + [] == holders;
    }
    if !stopped && file.value.error.Some? {
      return Err(file.value.error.value);
    }
    if |holders| > 0 {
      return Ok(Some(holders));
    }
    return Ok(None);
  }

  /** Every row and the record carry the keys the matching reads. */
  ghost predicate Keyed(rows: seq<Record>, info: Record) {
    "law_cd" in info && "reg_num" in info &&
    forall i :: 0 <= i < |rows| ==> "law_cd" in rows[i] && "reg_num" in rows[i]
  }

  /** A row of the same right; meaningful when both carry the keys. */
  ghost predicate Matches(row: Record, info: Record) {
    "law_cd" in row && "law_cd" in info && "reg_num" in row && "reg_num" in info &&
    row["law_cd"] == info["law_cd"] && row["reg_num"] == info["reg_num"]
  }

  /** The holders of the matching rows that carry an applicant id, in file order. */
  ghost function MatchingHolders(rows: seq<Record>, info: Record, zenToHan: string -> string): seq<Holder> {
    if rows == [] then []
    else
      var first := if Matches(rows[0], info) && "right_person_appl_id" in rows[0] then [HolderOf(rows[0], zenToHan)] else [];
      first + MatchingHolders(rows[1..], info, zenToHan)
  }

  /**
   * On rows that all carry the keys, the holder loop throws the whole list away exactly when
   * some matching row has no applicant id, and otherwise collects the holders of all matching
   * rows.
   */
  lemma {:induction false} HolderScanMeaning(rows: seq<Record>, info: Record, zenToHan: string -> string)
    requires Keyed(rows, info)
    ensures HolderScan(rows, info, zenToHan).Ok?
    ensures HolderScan(rows, info, zenToHan).value.None? <==>
      exists i :: 0 <= i < |rows| && Matches(rows[i], info) && "right_person_appl_id" !in rows[i]
    ensures HolderScan(rows, info, zenToHan).value.Some? ==>
      HolderScan(rows, info, zenToHan).value.value == MatchingHolders(rows, info, zenToHan)
  {
    if rows != [] {
      assert Keyed(rows[1..], info);
      HolderScanMeaning(rows[1..], info, zenToHan);
      assert forall i :: 1 <= i < |rows| ==> rows[1..][i - 1] == rows[i];
    }
  }

  /**
   * The class loop over the rows it reads: the designated class of every matching row that
   * has one, in order, or the KeyError of a row it cannot compare.
   */
  function ClassScan(rows: seq<Record>, info: Record): Result<seq<string>, Exception>
  {
    if rows == [] then Ok([])
    else match SameRight(rows[0], info)
      case Err(e) => Err(e)
      case Ok(same) =>
        match ClassScan(rows[1..], info)
          case Err(e) => Err(e)
          case Ok(cs) =>
            Ok((if same && "desig_goods_or_desig_wrk_class" in rows[0] then [rows[0]["desig_goods_or_desig_wrk_class"]] else []) + cs)
  }

  /** The classes collected so far in front of what the rest of the loop gives. */
  function PrependClasses(acc: seq<string>, rest: Result<seq<string>, Exception>): Result<seq<string>, Exception> {
    match rest
      case Ok(cs) => Ok(acc + cs)
      case Err(e) => rest
  }

  /** Prepending nothing, and prepending in two steps. */
  lemma PrependClassesSteps(acc: seq<string>, first: seq<string>, rest: Result<seq<string>, Exception>)
    ensures PrependClasses([], rest) == rest
    ensures PrependClasses(acc, PrependClasses(first, rest)) == PrependClasses(acc + first, rest)
  {
    if rest.Ok? {
      assert [] + rest.value == rest.value;
      assert acc + (first + rest.value) == (acc + first) + rest.value;
    }
  }

  /** `update['Classes']` for a class file: set only to a non-empty list. */
  function ClassesOf(file: Option<Table>, info: Record): (r: Result<Option<seq<string>>, Exception>)
    ensures r.Ok? && r.value.Some? ==> r.value.value != []
  {
    if file.None? then Ok(None)
    else match ClassScan(file.value.records, info)
      case Err(e) => Err(e)
      case Ok(cs) =>
        if file.value.error.Some? then Err(file.value.error.value)
        else if cs == [] then Ok(None)
        else Ok(Some(cs))
  }

  /** The class loop. */
  method CollectClasses(file: Option<Table>, info: Record) returns (r: Result<Option<seq<string>>, Exception>)
    ensures r == ClassesOf(file, info)
  {
    if file.None? {
      return Ok(None);
    }
    var rows := file.value.records;
    var classes: seq<string> := [];
    assert rows[0..] == rows;
    PrependClassesSteps([], [], ClassScan(rows, info));
    for i := 0 to |rows|
      invariant ClassScan(rows, info) == PrependClasses(classes, ClassScan(rows[i..], info))
    {
      assert rows[i..][0] == rows[i] && rows[i..][1..] == rows[i + 1..];
      var same := SameRight(rows[i], info);
      if same.Err? {
        return Err(same.error);
      }
      var found := if same.value && "desig_goods_or_desig_wrk_class" in rows[i] then [rows[i]["desig_goods_or_desig_wrk_class"]] else [];
      PrependClassesSteps(classes, found, ClassScan(rows[i + 1..], info));
      if same.value && "desig_goods_or_desig_wrk_class" in rows[i] {
        classes := classes + [rows[i]["desig_goods_or_desig_wrk_class"]];
      } else {
        assert classes + found == classes;
      }
    }
    assert rows[|rows|..] == [] && classes + [] == classes;
    if file.value.error.Some? {
      return Err(file.value.error.value);
    }
    if |classes| > 0 {
      return Ok(Some(classes));
    }
    return Ok(None);
  }

  /** The designated classes of the matching rows that carry one, in file order. */
  ghost function MatchingClasses(rows: seq<Record>, info: Record): seq<string> {
    if rows == [] then []
    else
      var first := if Matches(rows[0], info) && "desig_goods_or_desig_wrk_class" in rows[0] then [rows[0]["desig_goods_or_desig_wrk_class"]] else [];
      first + MatchingClasses(rows[1..], info)
  }

  /**
   * On rows that carry the keys, the classes are those of the matching rows, in file order and
   * with repeats, so a class appears exactly when some matching row designates it.
   */
  lemma {:induction false} ClassScanMeaning(rows: seq<Record>, info: Record)
    requires Keyed(rows, info)
    ensures ClassScan(rows, info).Ok?
    ensures ClassScan(rows, info).value == MatchingClasses(rows, info)
    ensures forall c :: c in ClassScan(rows, info).value <==>
      exists i :: 0 <= i < |rows| && Matches(rows[i], info) && "desig_goods_or_desig_wrk_class" in rows[i] &&
        rows[i]["desig_goods_or_desig_wrk_class"] == c
  {
    if rows != [] {
      assert Keyed(rows[1..], info);
      ClassScanMeaning(rows[1..], info);
      assert forall i :: 1 <= i < |rows| ==> rows[1..][i - 1] == rows[i];
    }
  }

  /** The registration number looked up: `pad0(info['reg_num'], 7)`. */
  function RegNumber(info: Record): Result<string, Exception>
  {
    if "reg_num" !in info then Err(KeyError) else CommonUtil.Pad0(info["reg_num"], 7)
  }

  /** The record's own fields completed by the holder and class lists, or the first error among them. */
  function Assembled(fields: Result<Update, Exception>, holders: Result<Option<seq<Holder>>, Exception>,
                     classes: Result<Option<seq<string>>, Exception>): Result<Update, Exception>
  {
    match fields
      case Err(e) => Err(e)
      case Ok(u) =>
        match holders
          case Err(e) => Err(e)
          case Ok(hs) =>
            match classes
              case Err(e) => Err(e)
              case Ok(cs) =>
                Ok(u.(holders := hs, classes := cs, numberOfClasses := if cs.Some? then Some(|cs.value|) else None))
  }

  /** What an assembled update is made of. */
  lemma AssembledShape(fields: Result<Update, Exception>, holders: Result<Option<seq<Holder>>, Exception>,
                       classes: Result<Option<seq<string>>, Exception>)
    ensures var r := Assembled(fields, holders, classes);
      && (fields.Err? ==> r == Err(fields.error))
      && (r.Ok? ==> (fields.Ok? && holders == Ok(r.value.holders) && classes == Ok(r.value.classes) &&
        r.value == fields.value.(holders := r.value.holders, classes := r.value.classes,
          numberOfClasses := r.value.numberOfClasses)))
      && (r.Ok? && r.value.classes.Some? ==> r.value.numberOfClasses == Some(|r.value.classes.value|))
  {
  }

  /** The whole update: the record's own fields, then the holders, then the classes. */
  function UpdateFor(info: Record, holderFile: Option<Table>, classFile: Option<Table>, zenToHan: string -> string): Result<Update, Exception>
  {
    Assembled(Fields(info, zenToHan), HoldersOf(holderFile, info, zenToHan), ClassesOf(classFile, info))
  }

  /**
   * The update raises what the record's fields raise first; otherwise it carries the record's
   * fields, the holder and class lists (each only when non-empty) and the class count.
   */
  lemma UpdateShape(info: Record, holderFile: Option<Table>, classFile: Option<Table>, zenToHan: string -> string)
    ensures var r := UpdateFor(info, holderFile, classFile, zenToHan);
      && (Fields(info, zenToHan).Err? ==> r == Err(ValueError))
      && (r.Ok? ==> (Fields(info, zenToHan).Ok? &&
        r.value == Fields(info, zenToHan).value.(holders := r.value.holders, classes := r.value.classes,
          numberOfClasses := r.value.numberOfClasses)))
      && (r.Ok? ==> (HoldersOf(holderFile, info, zenToHan) == Ok(r.value.holders) &&
        ClassesOf(classFile, info) == Ok(r.value.classes)))
      && (r.Ok? && r.value.classes.Some? ==> r.value.numberOfClasses == Some(|r.value.classes.value|))
      && (r.Ok? && r.value.holders.Some? ==> r.value.holders.value != [])
      && (r.Ok? && r.value.classes.Some? ==> r.value.classes.value != [])
  {
    FieldsError(info, zenToHan);
    AssembledShape(Fields(info, zenToHan), HoldersOf(holderFile, info, zenToHan), ClassesOf(classFile, info));
  }

  // ---------------------------------------------------------------------------------------
  // The query written on each property
  // ---------------------------------------------------------------------------------------

  /** The property fields the import can write. */
  datatype Key = PaidYearsKey | NextProcedureLimitKey | JpoInquiredTimeKey | InquiredTimeKey | ModifiedTimeKey

  datatype Value = Count(n: int) | Day(d: Date) | Moment(t: Instant)

  /** What the import reads of a property found for the number: its id and current values. */
  datatype Snapshot = Snapshot(id: string, paidYears: Option<int>, limit: Option<Date>)

  /**
   * What every property of the number gets written: PaidYears and NextProcedureLimit from the
   * update whenever the update has them, and the three inquiry timestamps; nothing else.
   */
  function Expected(u: Update, now: Instant): map<Key, Value>
  {
    var times := map[JpoInquiredTimeKey := Moment(now), InquiredTimeKey := Moment(now), ModifiedTimeKey := Moment(now)];
    var withPaid := if u.paidYears.Some? then times[PaidYearsKey := Count(u.paidYears.value)] else times;
    if u.limit.Some? then withPaid[NextProcedureLimitKey := Day(u.limit.value)] else withPaid
  }

  /**
   * The query has the three timestamps, all `now`, PaidYears and NextProcedureLimit exactly
   * when the update has them, with the update's values, and no other key.
   */
  lemma ExpectedKeys(u: Update, now: Instant)
    ensures var q := Expected(u, now);
      && q.Keys == {JpoInquiredTimeKey, InquiredTimeKey, ModifiedTimeKey} +
        (if u.paidYears.Some? then {PaidYearsKey} else {}) +
        (if u.limit.Some? then {NextProcedureLimitKey} else {})
      && q[JpoInquiredTimeKey] == q[InquiredTimeKey] == q[ModifiedTimeKey] == Moment(now)
      && (u.paidYears.Some? ==> q[PaidYearsKey] == Count(u.paidYears.value))
      && (u.limit.Some? ==> q[NextProcedureLimitKey] == Day(u.limit.value))
  {
  }

  /**
   * The `$set` part of the query, built as the source does: the two fields copied from the
   * update, then again only when larger than the property's own, then the timestamps. The
   * first step already wrote both, so the comparisons with the property change nothing:
   * the query is the same for every property. The `$unset` part is always empty and dropped.
   */
  method BuildQuery(prop: Snapshot, u: Update, now: Instant) returns (q: map<Key, Value>)
    ensures q == Expected(u, now)
  {
    q := map[];
    if u.paidYears.Some? {
      q := q[PaidYearsKey := Count(u.paidYears.value)];
    }
    if u.limit.Some? {
      q := q[NextProcedureLimitKey := Day(u.limit.value)];
    }
    if u.paidYears.Some? {
      if prop.paidYears.None? || prop.paidYears.value < u.paidYears.value {
        q := q[PaidYearsKey := Count(u.paidYears.value)];
      }
    }
    if u.limit.Some? {
      if prop.limit.None? || Before(prop.limit.value, u.limit.value) {
        q := q[NextProcedureLimitKey := Day(u.limit.value)];
      }
    }
    q := q[JpoInquiredTimeKey := Moment(now)];
    q := q[InquiredTimeKey := q[JpoInquiredTimeKey]];
    q := q[ModifiedTimeKey := q[JpoInquiredTimeKey]];
  }

  /** One `update_one` call: the property id and its `$set` map. */
  datatype Write = Write(id: string, query: map<Key, Value>)

  /** The writes for the properties found, in the order found. */
  function Writes(props: seq<Snapshot>, u: Update, now: Instant): seq<Write>
  {
    if props == [] then [] else [Write(props[0].id, Expected(u, now))] + Writes(props[1..], u, now)
  }

  /** One write per property found, in order, each with the same query. */
  lemma {:induction false} WritesMeaning(props: seq<Snapshot>, u: Update, now: Instant)
    ensures var ws := Writes(props, u, now);
      |ws| == |props| && forall k :: 0 <= k < |ws| ==> ws[k] == Write(props[k].id, Expected(u, now))
  {
    if props != [] {
      WritesMeaning(props[1..], u, now);
    }
  }

  /**
   * One management record: look up the properties of its padded number with `find` (the
   * database); none means nothing is read further, else every one gets the update.
   */
  function ImportRecord(info: Record, holderFile: Option<Table>, classFile: Option<Table>,
                        find: string -> seq<Snapshot>, zenToHan: string -> string, now: Instant): Result<seq<Write>, Exception>
  {
    match RegNumber(info)
      case Err(e) => Err(e)
      case Ok(number) =>
        var props := find(number);
        if props == [] then Ok([])
        else match UpdateFor(info, holderFile, classFile, zenToHan)
          case Err(e) => Err(e)
          case Ok(u) => Ok(Writes(props, u, now))
  }

  /** The writes `step` makes for the records, in order, up to the first record that raises. */
  function Imported(records: seq<Record>, step: Record -> Result<seq<Write>, Exception>): (seq<Write>, Option<Exception>)
  {
    if records == [] then ([], None)
    else
      var n := |records| - 1;
      var before := Imported(records[..n], step);
      if before.1.Some? then before
      else match step(records[n])
        case Err(e) => (before.0, Some(e))
        case Ok(ws) => (before.0 + ws, None)
  }

  /** Once a record has raised, the records after it are not imported. */
  lemma {:induction false} ImportedStops(records: seq<Record>, step: Record -> Result<seq<Write>, Exception>, k: nat)
    requires k <= |records| && Imported(records[..k], step).1.Some?
    ensures Imported(records, step) == Imported(records[..k], step)
    decreases |records| - k
  {
    if k < |records| {
      var n := |records| - 1;
      assert records[..n][..k] == records[..k];
      ImportedStops(records[..n], step, k);
    } else {
      assert records[..k] == records;
    }
  }

  /** One more record: its writes are added, or its exception ends the import. */
  lemma ImportedNext(records: seq<Record>, step: Record -> Result<seq<Write>, Exception>, i: nat, ws: seq<Write>)
    requires i < |records| && Imported(records[..i], step) == (ws, None)
    ensures step(records[i]).Ok? ==> Imported(records[..i + 1], step) == (ws + step(records[i]).value, None)
    ensures step(records[i]).Err? ==> Imported(records, step) == (ws, Some(step(records[i]).error))
  {
    assert records[..i + 1][..i] == records[..i];
    if step(records[i]).Err? {
      ImportedStops(records, step, i + 1);
    }
  }

  /** Every write comes from the step of one record that did not raise. */
  lemma {:induction false} ImportedFromRecords(records: seq<Record>, step: Record -> Result<seq<Write>, Exception>)
    ensures forall w :: w in Imported(records, step).0 ==>
      exists i :: 0 <= i < |records| && step(records[i]).Ok? && w in step(records[i]).value
  {
    if records != [] {
      var n := |records| - 1;
      ImportedFromRecords(records[..n], step);
      forall w | w in Imported(records, step).0
        ensures exists i :: 0 <= i < |records| && step(records[i]).Ok? && w in step(records[i]).value
      {
        if w in Imported(records[..n], step).0 {
          var i :| 0 <= i < n && step(records[..n][i]).Ok? && w in step(records[..n][i]).value;
          assert records[..n][i] == records[i];
        }
      }
    }
  }

  /** The import step of one record of a law's management file. */
  function RecordStep(holderFile: Option<Table>, classFile: Option<Table>, find: string -> seq<Snapshot>,
                      zenToHan: string -> string, now: Instant): Record -> Result<seq<Write>, Exception>
  {
    info => ImportRecord(info, holderFile, classFile, find, zenToHan, now)
  }

  /**
   * One law's management file: the writes done before the import stops, and the exception
   * that stopped it (a record's own, or the file's read error once its records are used up).
   */
  function Import(main: Table, holderFile: Option<Table>, classFile: Option<Table>,
                  find: string -> seq<Snapshot>, zenToHan: string -> string, now: Instant): (seq<Write>, Option<Exception>)
  {
    var (ws, e) := Imported(main.records, RecordStep(holderFile, classFile, find, zenToHan, now));
    (ws, if e.Some? then e else main.error)
  }

  /** The loop over the properties found: one `update_one` each, in order. */
  method WriteAll(props: seq<Snapshot>, u: Update, now: Instant) returns (ws: seq<Write>)
    ensures ws == Writes(props, u, now)
  {
    ws := [];
    WritesMeaning(props, u, now);
    for k := 0 to |props|
      invariant ws == Writes(props, u, now)[..k]
    {
      var q := BuildQuery(props[k], u, now);
      ws := ws + [Write(props[k].id, q)];
    }
    assert ws == Writes(props, u, now);
  }

  /** One record of the management file: the steps of the loop body, in the source's order. */
  method ImportOne(info: Record, holderFile: Option<Table>, classFile: Option<Table>,
                   find: string -> seq<Snapshot>, zenToHan: string -> string, now: Instant)
    returns (r: Result<seq<Write>, Exception>)
    ensures r == ImportRecord(info, holderFile, classFile, find, zenToHan, now)
  {
    var number := RegNumber(info);
    if number.Err? {
      return Err(number.error);
    }
    var props := find(number.value);
    if props == [] {
      return Ok([]);
    }
    var u := Fields(info, zenToHan);
    if u.Err? {
      return Err(u.error);
    }
    var holders := CollectHolders(holderFile, info, zenToHan);
    if holders.Err? {
      return Err(holders.error);
    }
    var classes := CollectClasses(classFile, info);
    if classes.Err? {
      return Err(classes.error);
    }
    var update := u.value.(holders := holders.value, classes := classes.value,
      numberOfClasses := if classes.value.Some? then Some(|classes.value.value|) else None);
    assert UpdateFor(info, holderFile, classFile, zenToHan) == Ok(update);
    var recordWrites := WriteAll(props, update, now);
    return Ok(recordWrites);
  }

  /** The loop over the records of one law's management file. */
  method ImportLaw(main: Table, holderFile: Option<Table>, classFile: Option<Table>,
                   find: string -> seq<Snapshot>, zenToHan: string -> string, now: Instant)
    returns (writes: seq<Write>, error: Option<Exception>)
    ensures (writes, error) == Import(main, holderFile, classFile, find, zenToHan, now)
  {
    var records := main.records;
    ghost var step := RecordStep(holderFile, classFile, find, zenToHan, now);
    writes := [];
    var i := 0;
    while i < |records|
      invariant 0 <= i <= |records|
      invariant Imported(records[..i], step) == (writes, None)
    {
      var r := ImportOne(records[i], holderFile, classFile, find, zenToHan, now);
      ImportedNext(records, step, i, writes);
      if r.Err? {
        return writes, Some(r.error);
      }
      writes := writes + r.value;
      i := i + 1;
    }
    assert records[..i] == records;
    return writes, main.error;
  }

  /** `w` goes to a property found for the number of `info`. */
  ghost predicate Target1(info: Record, find: string -> seq<Snapshot>, w: Write) {
    RegNumber(info).Ok? && exists p :: p in find(RegNumber(info).value) && p.id == w.id
  }

  /** The writes of one record go to the properties found for its number, stamped `now`. */
  lemma RecordTargets(info: Record, holderFile: Option<Table>, classFile: Option<Table>,
                      find: string -> seq<Snapshot>, zenToHan: string -> string, now: Instant)
    requires ImportRecord(info, holderFile, classFile, find, zenToHan, now).Ok?
    ensures forall w :: w in ImportRecord(info, holderFile, classFile, find, zenToHan, now).value ==>
      Target1(info, find, w) && ModifiedTimeKey in w.query && w.query[ModifiedTimeKey] == Moment(now)
  {
    var ws := ImportRecord(info, holderFile, classFile, find, zenToHan, now).value;
    forall w | w in ws
      ensures Target1(info, find, w) && ModifiedTimeKey in w.query && w.query[ModifiedTimeKey] == Moment(now)
    {
      var props := find(RegNumber(info).value);
      var u := UpdateFor(info, holderFile, classFile, zenToHan).value;
      WritesMeaning(props, u, now);
      ExpectedKeys(u, now);
      var k :| 0 <= k < |ws| && ws[k] == w;
      assert props[k] in props;
    }
  }

  /**
   * Every write of one law's import goes to a property `find` returned for the number of one
   * of the records, and carries the inquiry timestamp `now`.
   */
  lemma ImportTargets(main: Table, holderFile: Option<Table>, classFile: Option<Table>,
                      find: string -> seq<Snapshot>, zenToHan: string -> string, now: Instant)
    ensures forall w :: w in Import(main, holderFile, classFile, find, zenToHan, now).0 ==>
      (exists i :: 0 <= i < |main.records| && Target1(main.records[i], find, w)) &&
      ModifiedTimeKey in w.query && w.query[ModifiedTimeKey] == Moment(now)
  {
    var step := RecordStep(holderFile, classFile, find, zenToHan, now);
    ImportedFromRecords(main.records, step);
    forall w | w in Import(main, holderFile, classFile, find, zenToHan, now).0
      ensures (exists i :: 0 <= i < |main.records| && Target1(main.records[i], find, w)) &&
        ModifiedTimeKey in w.query && w.query[ModifiedTimeKey] == Moment(now)
    {
      var i :| 0 <= i < |main.records| && step(main.records[i]).Ok? && w in step(main.records[i]).value;
      RecordTargets(main.records[i], holderFile, classFile, find, zenToHan, now);
    }
  }
}
