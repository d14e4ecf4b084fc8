/** The actions a player can take (`PokerAction`, `ActionInfo` in Round.cs) and their
    display text (`Info` in ExtensionMethods.cs). */
module Actions {

  /** `PokerAction`; `Cancelled` is the answer of a turn that was called off. */
  datatype PokerAction = Fold | Check | Call | Raise | Cancelled

  /** `ActionInfo`: the action and, for a raise, its amount. */
  datatype ActionInfo = ActionInfo(actionType: PokerAction, betAmount: int)

  /** The enum's `ToString`. */
  function ActionName(a: PokerAction): (s: string)
    ensures |s| >= 4
  {
    match a
    case Fold => "Fold"
    case Check => "Check"
    case Call => "Call"
    case Raise => "Raise"
    case Cancelled => "Cancelled"
  }

  // ---------------------------------------------------------------------------
  // Decimal text of an int, as `int.ToString()` writes it
  // ---------------------------------------------------------------------------

  function DigitChar(d: nat): (c: char)
    requires d < 10
    ensures '0' <= c <= '9'
    ensures c as int - '0' as int == d
  {
    (d + '0' as int) as char
  }

  predicate IsDigits(s: string) {
    s != [] && forall i | 0 <= i < |s| :: '0' <= s[i] <= '9'
  }

  /** The decimal digits of n, without leading zeros. */
  function NatToString(n: nat): (s: string)
    ensures IsDigits(s)
    ensures n > 0 ==> s[0] != '0'
    decreases n
  {
    if n < 10 then [DigitChar(n)] else NatToString(n / 10) + [DigitChar(n % 10)]
  }

  /** Reading decimal digits back. */
  function ParseNat(s: string): nat
    requires IsDigits(s)
    decreases |s|
  {
    var d := s[|s| - 1] as int - '0' as int;
    if |s| == 1 then d else 10 * ParseNat(s[..|s| - 1]) + d
  }

  /** Printing then reading a number gives the number back. */
  lemma {:induction false} ParseNatToString(n: nat)
    ensures ParseNat(NatToString(n)) == n
    decreases n
  {
    if n >= 10 {
      var s := NatToString(n);
      assert s[..|s| - 1] == NatToString(n / 10);
      ParseNatToString(n / 10);
    }
  }

  /** `int.ToString()`: a minus sign before the digits of a negative number. */
  function IntToString(i: int): (s: string)
    ensures i < 0 <==> (s != [] && s[0] == '-')
    ensures i >= 0 ==> s == NatToString(i)
    ensures i < 0 ==> s[1..] == NatToString(-i)
  {
    if i < 0 then "-" + NatToString(-i) else NatToString(i)
  }

  /** `Info(action, level)`: "Call (level)", "Raise (level + AMOUNT)" or "Raise (AMOUNT)"
      when there is nothing to level, and the bare action name otherwise. */
  function Info(action: PokerAction, level: int): (s: string)
    ensures |s| >= |ActionName(action)| && s[..|ActionName(action)|] == ActionName(action)
    ensures action != Call && action != Raise ==> s == ActionName(action)
  {
    if action == Call then ActionName(action) + " (" + IntToString(level) + ")"
    else if action == Raise then ActionName(action) + " (" + (if level != 0 then IntToString(level) + " + " else "") + "AMOUNT)"
    else ActionName(action)
  }

  /** The level a call shows can be read back from its text, and a raise shows the level
      only when there is one. */
  lemma InfoShowsLevel(level: nat)
    ensures Info(Call, level)[6..|Info(Call, level)| - 1] == NatToString(level)
    ensures ParseNat(Info(Call, level)[6..|Info(Call, level)| - 1]) == level
    ensures level == 0 <==> Info(Raise, level) == "Raise (AMOUNT)"
  {
    var s := Info(Call, level);
    assert s == "Call (" + NatToString(level) + ")";
    ParseNatToString(level);
    if level != 0 {
      assert |Info(Raise, level)| > |"Raise (AMOUNT)"|;
    }
  }
}
