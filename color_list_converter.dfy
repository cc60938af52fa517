/**
 * data/local/ColorListConverter.kt: the Room type converter that stores a
 * subject's list of ARGB colours as one comma-separated text column.
 */
module ColorListConverter {
  import opened Wrappers
  import opened KotlinText

  /** `xs.map { it.toString() }` */
  function Decimals(xs: seq<Int32>): (fields: seq<string>)
    ensures |fields| == |xs|
    ensures forall i :: 0 <= i < |xs| ==> fields[i] == IntToString(xs[i])
  {
    if |xs| == 0 then [] else [IntToString(xs[0])] + Decimals(xs[1..])
  }

  /** `fields.map { it.toInt() }`: `None` where some field makes `toInt` throw. */
  function ParseAll(fields: seq<string>): (r: Option<seq<Int32>>)
    ensures r.Some? ==> |r.value| == |fields| && forall i :: 0 <= i < |fields| ==> ParseInt(fields[i]) == Some(r.value[i])
    ensures r.None? <==> exists i :: 0 <= i < |fields| && ParseInt(fields[i]).None?
  {
    if |fields| == 0 then Some([])
    else match ParseInt(fields[0])
      case None => None
      case Some(x) =>
        match ParseAll(fields[1..])
        case None => None
        case Some(rest) => Some([x] + rest)
  }

  /** `fromColorList`: the decimal text of every colour, joined with ",". */
  function FromColorList(colors: seq<Int32>): (text: string)
    ensures |colors| >= 1 ==> Split(text, ',') == Decimals(colors)
    ensures |colors| >= 1 ==> Count(text, ',') == |colors| - 1
    ensures |colors| == 0 ==> text == ""
  {
    var fields := Decimals(colors);
    if |colors| >= 1 then
      assert forall i :: 0 <= i < |fields| ==> ',' !in fields[i];
      SplitJoin(fields, ',');
      Join(fields, ',')
    else
      Join(fields, ',')
  }

  /**
   * `toColorList`: split on "," and parse every field; `None` stands for the
   * NumberFormatException that `toInt` throws on a field that is not a
   * decimal `Int`. On success there is one colour per field.
   */
  function ToColorList(text: string): (r: Option<seq<Int32>>)
    ensures r.Some? ==> |r.value| == Count(text, ',') + 1
    ensures r.None? <==> exists field :: field in Split(text, ',') && ParseInt(field).None?
  {
    var fields := Split(text, ',');
    assert (exists field :: field in fields && ParseInt(field).None?) <==>
           (exists i :: 0 <= i < |fields| && ParseInt(fields[i]).None?);
    ParseAll(fields)
  }

  /** One step of `map { toInt() }`: a parsed first field in front of the parsed rest. */
  lemma ParseAllCons(fields: seq<string>, x: Int32, rest: seq<Int32>)
    requires |fields| > 0 && ParseInt(fields[0]) == Some(x)
    requires ParseAll(fields[1..]) == Some(rest)
    ensures ParseAll(fields) == Some([x] + rest)
  {
  }

  /** Parsing back the decimal text of each colour gives the colours. */
  lemma {:induction false} ParseAllDecimals(xs: seq<Int32>)
    ensures ParseAll(Decimals(xs)) == Some(xs)
    decreases |xs|
  {
    if |xs| > 0 {
      var fields := Decimals(xs);
      assert fields == [IntToString(xs[0])] + Decimals(xs[1..]);
      ParseIntToString(xs[0]);
      ParseAllDecimals(xs[1..]);
      ParseAllCons(fields, xs[0], xs[1..]);
      assert xs == [xs[0]] + xs[1..];
    }
  }

  /** Storing a non-empty colour list and reading it back gives the same list. */
  lemma RoundTrip(colors: seq<Int32>)
    requires |colors| >= 1
    ensures ToColorList(FromColorList(colors)) == Some(colors)
  {
    ParseAllDecimals(colors);
  }

  /** The empty list is stored as "", which does not read back: "" splits into one empty field. */
  lemma EmptyListDoesNotRoundTrip()
    ensures FromColorList([]) == ""
    ensures ToColorList("") == None
  {
    assert Split("", ',') == [""];
    assert ParseInt("") == None;
  }
}
