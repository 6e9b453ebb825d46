/** The ten scoring categories of Thirty (models/ScoreOption.kt) and the string
    conversions the rest of the program applies to them. */
module ScoreOptions {
  import opened Wrappers

  /** The enum constants, declared in the source's order. */
  datatype ScoreOption = Low | Four | Five | Six | Seven | Eight | Nine | Ten | Eleven | Twelve

  /** `ScoreOption.entries`: all constants in declaration order. */
  const Entries: seq<ScoreOption> := [Low, Four, Five, Six, Seven, Eight, Nine, Ten, Eleven, Twelve]

  /** The display label, which is also what `toString` returns. */
  function Label(o: ScoreOption): string
  {
    match o
    case Low => "Low"
    case Four => "4"
    case Five => "5"
    case Six => "6"
    case Seven => "7"
    case Eight => "8"
    case Nine => "9"
    case Ten => "10"
    case Eleven => "11"
    case Twelve => "12"
  }

  /** The constant's `name`, used as the key when scores are saved or exported. */
  function Name(o: ScoreOption): string
  {
    match o
    case Low => "LOW"
    case Four => "FOUR"
    case Five => "FIVE"
    case Six => "SIX"
    case Seven => "SEVEN"
    case Eight => "EIGHT"
    case Nine => "NINE"
    case Ten => "TEN"
    case Eleven => "ELEVEN"
    case Twelve => "TWELVE"
  }

  lemma {:induction false} EntriesAreAllCategories()
    ensures |Entries| == 10
    ensures forall o: ScoreOption :: o in Entries
    ensures Entries[0] == Low
    ensures forall i, j :: 0 <= i < j < |Entries| ==> Entries[i] != Entries[j]
  {
    forall o: ScoreOption ensures o in Entries {
      var k := match o
        case Low => 0 case Four => 1 case Five => 2 case Six => 3 case Seven => 4
        case Eight => 5 case Nine => 6 case Ten => 7 case Eleven => 8 case Twelve => 9;
      assert Entries[k] == o;
    }
  }

  lemma {:induction false} LabelsDistinct(o: ScoreOption, p: ScoreOption)
    ensures Label(o) == Label(p) ==> o == p
  {
  }

  /** The first entry of `os` whose label is `text` (Kotlin's `firstOrNull`). */
  function FirstWithLabel(os: seq<ScoreOption>, text: string): (r: Option<ScoreOption>)
    ensures r.Some? ==> r.value in os && Label(r.value) == text
    ensures r.None? <==> forall o :: o in os ==> Label(o) != text
  {
    if os == [] then None
    else if Label(os[0]) == text then Some(os[0])
    else FirstWithLabel(os[1..], text)
  }

  /** The entry found is the first one carrying the label: every entry before it carries
      another. */
  lemma {:induction false} FirstWithLabelIsFirst(os: seq<ScoreOption>, text: string)
    ensures var r := FirstWithLabel(os, text);
      r.Some? ==> exists k :: 0 <= k < |os| && os[k] == r.value && forall j :: 0 <= j < k ==> Label(os[j]) != text
  {
    if os != [] && Label(os[0]) != text {
      var r := FirstWithLabel(os[1..], text);
      FirstWithLabelIsFirst(os[1..], text);
      if r.Some? {
        var k :| 0 <= k < |os[1..]| && os[1..][k] == r.value && forall j :: 0 <= j < k ==> Label(os[1..][j]) != text;
        assert os[k + 1] == r.value;
        assert forall j :: 0 <= j < k + 1 ==> Label(os[j]) != text by {
          forall j | 0 <= j < k + 1 ensures Label(os[j]) != text {
            if j > 0 {
              assert os[j] == os[1..][j - 1];
            }
          }
        }
      }
    }
  }

  /** `ScoreOption.fromLabel`: the entry carrying `text`, or `None`. */
  function FromLabel(text: string): (r: Option<ScoreOption>)
    ensures r.Some? ==> Label(r.value) == text
    ensures r.None? <==> forall o: ScoreOption :: Label(o) != text
  {
    EntriesAreAllCategories();
    FirstWithLabel(Entries, text)
  }

  lemma {:induction false} FromLabelOfLabel(o: ScoreOption)
    ensures FromLabel(Label(o)) == Some(o)
  {
    var r := FromLabel(Label(o));
    LabelsDistinct(r.value, o);
  }

  /** Kotlin's `ScoreOption.valueOf(name)`; `None` where the source throws
      `IllegalArgumentException` for an unknown name. */
  function ValueOf(name: string): (r: Option<ScoreOption>)
    ensures r.Some? ==> Name(r.value) == name
  {
    if name == "LOW" then Some(Low)
    else if name == "FOUR" then Some(Four)
    else if name == "FIVE" then Some(Five)
    else if name == "SIX" then Some(Six)
    else if name == "SEVEN" then Some(Seven)
    else if name == "EIGHT" then Some(Eight)
    else if name == "NINE" then Some(Nine)
    else if name == "TEN" then Some(Ten)
    else if name == "ELEVEN" then Some(Eleven)
    else if name == "TWELVE" then Some(Twelve)
    else None
  }

  lemma {:induction false} ValueOfName(o: ScoreOption)
    ensures ValueOf(Name(o)) == Some(o)
  {
  }

  /** `valueOf` inverts `name` on every constant. */
  lemma {:induction false} ValueOfNames()
    ensures forall o :: ValueOf(Name(o)) == Some(o)
  {
    forall o
      ensures ValueOf(Name(o)) == Some(o)
    {
      ValueOfName(o);
    }
  }

  lemma {:induction false} NamesDistinct(o: ScoreOption, p: ScoreOption)
    ensures Name(o) == Name(p) ==> o == p
  {
  }

  // ---- Kotlin's String.toIntOrNull(), as used on a category label ----

  const IntMin: int := -0x8000_0000
  const IntMax: int := 0x7fff_ffff

  predicate IsDigit(c: char)
  {
    '0' <= c <= '9'
  }

  predicate AllDigits(s: string)
  {
    forall i :: 0 <= i < |s| ==> IsDigit(s[i])
  }

  /** The value of a string of decimal digits, most significant first. */
  function DigitsValue(s: string): nat
    requires AllDigits(s)
  {
    if s == [] then 0 else DigitsValue(s[..|s| - 1]) * 10 + (s[|s| - 1] - '0') as nat
  }

  /** `toIntOrNull()`: an optional `-` or `+` followed by at least one decimal digit,
      in the 32-bit range; anything else gives `None`. */
  function ParseInt(s: string): (r: Option<int>)
    ensures r.Some? ==> IntMin <= r.value <= IntMax
    ensures r.Some? ==> |s| > 0 && AllDigits(if s[0] == '-' || s[0] == '+' then s[1..] else s)
  {
    if s == [] then None
    else
      var negative := s[0] == '-';
      var digits := if s[0] == '-' || s[0] == '+' then s[1..] else s;
      if digits == [] || !AllDigits(digits) then None
      else
        var magnitude: int := DigitsValue(digits);
        var v := if negative then -magnitude else magnitude;
        if IntMin <= v <= IntMax then Some(v) else None
  }

  /** The decimal rendering of a natural number, without leading zeros. */
  function DecimalString(n: nat): (s: string)
    ensures |s| > 0 && AllDigits(s) && s[0] != '-' && s[0] != '+'
  {
    if n < 10 then ['0' + n as char]
    else DecimalString(n / 10) + ['0' + (n % 10) as char]
  }

  lemma {:induction false} DigitsValueOfDecimal(n: nat)
    ensures DigitsValue(DecimalString(n)) == n
  {
    if n >= 10 {
      var s := DecimalString(n);
      assert s[..|s| - 1] == DecimalString(n / 10);
      DigitsValueOfDecimal(n / 10);
    }
  }

  /** Parsing inverts rendering for every value a 32-bit `Int` can hold. */
  lemma {:induction false} ParseDecimal(n: nat)
    requires n <= IntMax
    ensures ParseInt(DecimalString(n)) == Some(n)
  {
    DigitsValueOfDecimal(n);
  }

  /** The target of a numeric category: the integer its label stands for. */
  function Target(o: ScoreOption): (t: int)
    requires o != Low
    ensures 4 <= t <= 12
    ensures Label(o) == DecimalString(t) && ParseInt(Label(o)) == Some(t)
  {
    var t := match o
      case Four => 4 case Five => 5 case Six => 6 case Seven => 7 case Eight => 8
      case Nine => 9 case Ten => 10 case Eleven => 11 case Twelve => 12;
    ParseDecimal(t);
    t
  }

  /** "Low" is not a number, so only the nine numeric labels parse. */
  lemma {:induction false} LowLabelDoesNotParse()
    ensures ParseInt(Label(Low)) == None
  {
  }
}
