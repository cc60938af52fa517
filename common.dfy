/**
 * util/Common.kt: task priorities, two-digit padding and the one-shot UI
 * events (snackbar messages and "navigate up") that view-models emit.
 */
module Common {
  import opened Wrappers
  import opened KotlinText

  /** The three task priorities, with the title and the stored integer of each. */
  datatype Priority = LOW | MEDIUM | HIGH {

    function Title(): string {
      match this
      case LOW => "Low"
      case MEDIUM => "Medium"
      case HIGH => "High"
    }

    /** The integer a task row stores for this priority. */
    function Value(): int {
      match this
      case LOW => 0
      case MEDIUM => 1
      case HIGH => 2
    }
  }

  /** `Priority.entries`, in declaration order. */
  const Entries: seq<Priority> := [LOW, MEDIUM, HIGH]

  /** `ps.firstOrNull { it.value == v }` */
  function FirstWithValue(ps: seq<Priority>, v: int): (r: Option<Priority>)
    ensures r.Some? ==> r.value in ps && r.value.Value() == v
    ensures r.None? ==> forall p :: p in ps ==> p.Value() != v
  {
    if |ps| == 0 then None
    else if ps[0].Value() == v then Some(ps[0])
    else FirstWithValue(ps[1..], v)
  }

  /**
   * `Priority.fromInt`: the priority stored as `v`; MEDIUM for any integer
   * that is not the value of some priority.
   */
  function FromInt(v: int): (p: Priority)
    ensures 0 <= v <= 2 ==> p.Value() == v
    ensures !(0 <= v <= 2) ==> p == MEDIUM
  {
    FirstWithValue(Entries, v).GetOr(MEDIUM)
  }

  /** Decoding the stored value of a priority gives the priority back. */
  lemma FromIntValue(p: Priority)
    ensures FromInt(p.Value()) == p
  {
  }

  /** No two priorities share a stored value. */
  lemma ValuesDistinct(p: Priority, q: Priority)
    requires p != q
    ensures p.Value() != q.Value()
  {
  }

  /**
   * `n.pad()`, that is `n.toString().padStart(2, '0')`: the decimal text of
   * `n`, preceded by as many '0' as it takes to reach two characters.
   */
  function Pad(n: int): (s: string)
    ensures var d := IntToString(n);
      && |s| == (if |d| < 2 then 2 else |d|)
      && s[|s| - |d|..] == d
      && forall i :: 0 <= i < |s| - |d| ==> s[i] == '0'
  {
    var d := IntToString(n);
    if |d| >= 2 then d else seq(2 - |d|, _ => '0') + d
  }

  /** A single digit gets one leading zero. */
  lemma PadSingleDigit(n: int)
    requires 0 <= n <= 9
    ensures Pad(n) == ['0', DigitChar(n)]
  {
  }

  /** Two or more digits are left as they are. */
  lemma PadManyDigits(n: int)
    requires n >= 10
    ensures Pad(n) == IntToString(n)
  {
  }

  datatype SnackbarDuration = Short | Long

  /** util/Common.kt's `SnackBarEvent`. */
  datatype SnackBarEvent =
    | ShowSnackBar(message: string, duration: SnackbarDuration)
    | NavigateUp

  /** A snackbar with the default (short) duration. */
  function Show(message: string): SnackBarEvent {
    ShowSnackBar(message, Short)
  }

  /**
   * The exception a repository call raised, as far as the view-models look at
   * it: its message, which may be null.
   */
  datatype Fault = Fault(message: Option<string>)

  /**
   * `e.message ?: "<context>${e.localizedMessage}"`: the message, or the
   * context followed by the localized message, which for a null message is
   * null and prints as "null".
   */
  function FaultText(f: Fault, context: string): (text: string)
    ensures f.message.Some? ==> text == f.message.value
    ensures f.message.None? ==> |text| > |context| && text[..|context|] == context
  {
    match f.message
    case Some(m) => m
    case None => context + "null"
  }
}
