/** services/data_loader.py: turns the scraper's JSON output into comment
    records, normalising the Turkish date text on the way. */
module DataLoader {
  import opened PyValues
  import opened PyText

  /** What `datetime.now()` would give: the day as `YYYY-MM-DD` and the year. */
  datatype Clock = Clock(today: string, year: int)

  /** Turkish month names on the site, with their two-digit month numbers. */
  const TurkishMonths: map<string, string> := map[
    "Ocak" := "01", "Şubat" := "02", "Mart" := "03", "Nisan" := "04",
    "Mayıs" := "05", "Haziran" := "06", "Temmuz" := "07", "Ağustos" := "08",
    "Eylül" := "09", "Ekim" := "10", "Kasım" := "11", "Aralık" := "12"]

  const MonthCodes: set<string> :=
    {"01", "02", "03", "04", "05", "06", "07", "08", "09", "10", "11", "12"}

  /** Its values are exactly the month numbers "01" to "12". */
  lemma MonthTableValues()
    ensures TurkishMonths.Values == MonthCodes
  {
    assert TurkishMonths["Ocak"] == "01" && TurkishMonths["Şubat"] == "02" && TurkishMonths["Mart"] == "03";
    assert TurkishMonths["Nisan"] == "04" && TurkishMonths["Mayıs"] == "05" && TurkishMonths["Haziran"] == "06";
    assert TurkishMonths["Temmuz"] == "07" && TurkishMonths["Ağustos"] == "08" && TurkishMonths["Eylül"] == "09";
    assert TurkishMonths["Ekim"] == "10" && TurkishMonths["Kasım"] == "11" && TurkishMonths["Aralık"] == "12";
  }

  /** No two names share a month number. */
  lemma MonthTableInjective()
    ensures forall a, b :: a in TurkishMonths && b in TurkishMonths && TurkishMonths[a] == TurkishMonths[b] ==> a == b
  {
  }

  /** `TURKISH_MONTHS.get(name, "01")`. */
  function MonthCode(name: string): (code: string)
    ensures code in MonthCodes
    ensures name in TurkishMonths ==> code == TurkishMonths[name]
    ensures name !in TurkishMonths ==> code == "01"
  {
    if name in TurkishMonths then TurkishMonths[name] else "01"
  }

  lemma MonthCodeNoDash(name: string)
    ensures '-' !in MonthCode(name)
  {
  }

  /** Case matters: a lower-case month name is not in the table. */
  lemma LowerCaseMonthIsJanuary()
    ensures MonthCode("şubat") == "01" && MonthCode("aralık") == "01"
  {
  }

  /** The whitespace-separated words of the date text, `date_str.strip().split()`. */
  function DateWords(s: string): seq<string>
  {
    Words(Strip(s))
  }

  /** The ISO date built from the first two words: `f"{year}-{month}-{day}"`. */
  function DateFromWords(year: int, parts: seq<string>): string
    requires |parts| >= 2
  {
    IntToString(year) + "-" + MonthCode(parts[1]) + "-" + ZFill(parts[0], 2)
  }

  /** The year `parse_turkish_date` writes: the one given, else the current one. */
  function YearOf(defaultYear: Option<int>, now: Clock): int
  {
    if defaultYear.Some? then defaultYear.value else now.year
  }

  /** `parse_turkish_date(date_str, default_year)`. A value that Python
      considers false gives today's date; a true value that is not a string
      makes `.strip()` raise, which the function catches, again giving today's
      date. */
  function ParseTurkishDate(dateStr: Json, defaultYear: Option<int>, now: Clock): string
  {
    if !Truthy(dateStr) || !dateStr.JStr? then now.today
    else
      var parts := DateWords(dateStr.s);
      if |parts| < 2 then now.today else DateFromWords(YearOf(defaultYear, now), parts)
  }

  /** The case the date text has at least two words. */
  lemma ParseFromWords(s: string, defaultYear: Option<int>, now: Clock)
    requires |DateWords(s)| >= 2
    ensures ParseTurkishDate(JStr(s), defaultYear, now) == DateFromWords(YearOf(defaultYear, now), DateWords(s))
  {
    assert s != "";
    assert Truthy(JStr(s));
    assert JStr(s).s == s;
  }

  /** No date text, or text that is not a string, gives today's date. */
  lemma MissingDateIsToday(dateStr: Json, defaultYear: Option<int>, now: Clock)
    requires dateStr == JStr("") || !dateStr.JStr?
    ensures ParseTurkishDate(dateStr, defaultYear, now) == now.today
  {
  }

  /** Fewer than two words gives today's date. */
  lemma FewWordsIsToday(s: string, defaultYear: Option<int>, now: Clock)
    requires |DateWords(s)| < 2
    ensures ParseTurkishDate(JStr(s), defaultYear, now) == now.today
  {
  }

  /** With at least two words the result is year, month number and padded day
      joined by '-', whatever follows the second word. */
  lemma DateShape(s: string, defaultYear: Option<int>, now: Clock)
    requires |DateWords(s)| >= 2
    ensures var parts := DateWords(s);
      ParseTurkishDate(JStr(s), defaultYear, now)
        == JoinWith([IntToString(YearOf(defaultYear, now)), MonthCode(parts[1]), ZFill(parts[0], 2)], "-")
    ensures |DateWords(s)[0]| >= 2 ==> ZFill(DateWords(s)[0], 2) == DateWords(s)[0]
    ensures |ZFill(DateWords(s)[0], 2)| >= 2
  {
    var parts := DateWords(s);
    ParseFromWords(s, defaultYear, now);
    JoinThree(IntToString(YearOf(defaultYear, now)), MonthCode(parts[1]), ZFill(parts[0], 2), "-");
  }

  /** Only the first two words matter: a time, an explicit year or anything else
      after them never changes the result, and the year is always the
      supplied one (or the current one). */
  lemma LaterWordsIgnored(s: string, t: string, defaultYear: Option<int>, now: Clock)
    requires |DateWords(s)| >= 2 && |DateWords(t)| >= 2
    requires DateWords(s)[..2] == DateWords(t)[..2]
    ensures ParseTurkishDate(JStr(s), defaultYear, now) == ParseTurkishDate(JStr(t), defaultYear, now)
  {
    var ps, pt := DateWords(s), DateWords(t);
    ParseFromWords(s, defaultYear, now);
    ParseFromWords(t, defaultYear, now);
    assert ps[0] == ps[..2][0] && ps[1] == ps[..2][1];
    assert pt[0] == pt[..2][0] && pt[1] == pt[..2][1];
    assert DateFromWords(YearOf(defaultYear, now), ps) == DateFromWords(YearOf(defaultYear, now), pt);
  }

  /** The site's date text, a day word and a month word followed by a blank
      and anything else (such as `16 Ocak 10:23`), is read from those two
      words alone. */
  lemma DayMonthDate(day: string, month: string, rest: string, defaultYear: Option<int>, now: Clock)
    requires IsWord(day) && IsWord(month)
    ensures ParseTurkishDate(JStr(day + " " + month + " " + rest), defaultYear, now)
      == IntToString(YearOf(defaultYear, now)) + "-" + MonthCode(month) + "-" + ZFill(day, 2)
  {
    var s := day + " " + month + " " + rest;
    var m2 := month + " " + rest;
    ConcatAssoc(day + " ", month, " ");
    ConcatAssoc(day + " ", month + " ", rest);
    assert s == day + [' '] + m2;
    WordsAtSpace(day, ' ', m2);
    WordsAtSpace(month, ' ', rest);
    WordsOfWord(day);
    WordsOfWord(month);
    WordsStrip(s);
    var parts := DateWords(s);
    assert parts == [day] + ([month] + Words(rest));
    assert parts[0] == day && parts[1] == month;
    ParseFromWords(s, defaultYear, now);
  }

  lemma ZFillNoDash(w: string)
    requires '-' !in w
    ensures '-' !in ZFill(w, 2)
  {
  }

  lemma NoDashInDigits(y: string)
    requires AllDigits(y)
    ensures '-' !in y
  {
  }

  /** For a non-negative year and a day word without '-', the three fields can
      be read back by splitting the result on '-'. */
  lemma DateFieldsReadBack(s: string, defaultYear: Option<int>, now: Clock)
    requires |DateWords(s)| >= 2
    requires YearOf(defaultYear, now) >= 0
    requires '-' !in DateWords(s)[0]
    ensures var parts := DateWords(s);
      SplitOn(ParseTurkishDate(JStr(s), defaultYear, now), '-')
        == [NatToString(YearOf(defaultYear, now)), MonthCode(parts[1]), ZFill(parts[0], 2)]
  {
    var parts := DateWords(s);
    var y, m, d := NatToString(YearOf(defaultYear, now)), MonthCode(parts[1]), ZFill(parts[0], 2);
    DateShape(s, defaultYear, now);
    NoDashInDigits(y);
    MonthCodeNoDash(parts[1]);
    ZFillNoDash(parts[0]);
    SplitJoinThree(y, m, d, '-');
  }

  /** One comment record as `load_scraped_data` builds it. */
  datatype Comment = Comment(id: nat, text: Json, platform: string, date: string)

  /** The loader's dictionary: the comments and, when it could be inferred,
      a `brand` entry. */
  datatype Loaded = Loaded(comments: seq<Comment>, brand: Option<Json>)

  const Platform := "sikayetvar"

  /** The record for the item at position `idx` (counting from 0). */
  function ToComment(idx: nat, item: map<string, Json>, now: Clock): Comment
  {
    Comment(idx + 1, PyValues.Get(item, "text", JStr("")), Platform,
            ParseTurkishDate(PyValues.Get(item, "date", JNull), None, now))
  }

  /** The sequence the loop walks over: the data itself when it is a list,
      otherwise its `items` entry (default `[]`). Iterating a non-empty
      dictionary or string yields strings, whose missing `.get` raises
      `AttributeError`; a number, boolean or `None` is not iterable. */
  function ItemsOf(data: Json): Result<seq<Json>>
  {
    if data.JArr? then Ok(data.elems)
    else if !data.JObj? then Raised(AttributeError)
    else
      var items := PyValues.Get(data.fields, "items", JArr([]));
      match items
      case JArr(xs) => Ok(xs)
      case JObj(m) => if m == map[] then Ok([]) else Raised(AttributeError)
      case JStr(s) => if s == "" then Ok([]) else Raised(AttributeError)
      case _ => Raised(TypeError)
  }

  /** A bare list and a dictionary holding it under `items` are read alike. */
  lemma ListAndWrappedAgree(xs: seq<Json>, extra: map<string, Json>)
    ensures ItemsOf(JArr(xs)) == ItemsOf(JObj(extra["items" := JArr(xs)])) == Ok(xs)
  {
  }

  /** `load_scraped_data(file_path)` on the file's parsed contents; `None`
      stands for a missing file or invalid JSON. */
  method LoadScrapedData(data: Option<Json>, now: Clock) returns (r: Option<Result<Loaded>>)
    ensures data.None? <==> r.None?
    ensures data.Some? && ItemsOf(data.value).Raised? ==> r == Some(Raised(ItemsOf(data.value).error))
    ensures data.Some? && ItemsOf(data.value).Ok? ==>
      var items := ItemsOf(data.value).value;
      && ((exists i :: 0 <= i < |items| && !items[i].JObj?) ==> r == Some(Raised(AttributeError)))
      && ((forall i :: 0 <= i < |items| ==> items[i].JObj?) ==>
            && r.Some? && r.value.Ok?
            && |r.value.value.comments| == |items|
            && (forall i :: 0 <= i < |items| ==>
                  && r.value.value.comments[i].id == i + 1
                  && r.value.value.comments[i].platform == Platform
                  && r.value.value.comments[i].text ==
                       (if "text" in items[i].fields then items[i].fields["text"] else JStr(""))
                  && r.value.value.comments[i].date ==
                       ParseTurkishDate(if "date" in items[i].fields then items[i].fields["date"] else JNull, None, now))
            && (r.value.value.brand.Some? <==> |items| > 0 && "company" in items[0].fields)
            && (r.value.value.brand.Some? ==> r.value.value.brand.value == items[0].fields["company"]))
  {
    if data.None? {
      return None;
    }
    var itemsOr := ItemsOf(data.value);
    if itemsOr.Raised? {
      return Some(Raised(itemsOr.error));
    }
    var items := itemsOr.value;
    var transformed: seq<Comment> := [];
    var idx := 0;
    while idx < |items|
      invariant 0 <= idx <= |items|
      invariant |transformed| == idx
      invariant forall i :: 0 <= i < idx ==> items[i].JObj? && transformed[i] == ToComment(i, items[i].fields, now)
    {
      var item := items[idx];
      if !item.JObj? {
        return Some(Raised(AttributeError));
      }
      transformed := transformed + [ToComment(idx, item.fields, now)];
      idx := idx + 1;
    }
    var brand: Option<Json> := None;
    if |items| > 0 && "company" in items[0].fields {
      brand := Some(items[0].fields["company"]);
    }
    r := Some(Ok(Loaded(transformed, brand)));
  }
}
