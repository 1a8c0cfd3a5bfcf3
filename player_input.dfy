// The bet-amount input and the action buttons of the web client's own seat
// (web/components/Player.jsx).

module PlayerInput {
  import opened Common
  import opened LegacyNet
  import opened WebProto

  predicate IsDigit(c: char) {
    '0' <= c <= '9'
  }

  /** value.replace(/[^0-9]/g, ''): the digits, in order. */
  function DigitsOf(s: string): (r: string)
    ensures |r| <= |s|
    ensures forall i :: 0 <= i < |r| ==> IsDigit(r[i])
  {
    if s == [] then [] else (if IsDigit(s[0]) then [s[0]] else []) + DigitsOf(s[1..])
  }

  /** BigInt of a digit string; BigInt('') is 0n. */
  function DecimalValue(s: string): nat
    requires forall i :: 0 <= i < |s| ==> IsDigit(s[i])
  {
    if s == [] then 0
    else
      assert IsDigit(s[|s| - 1]);
      DecimalValue(s[..|s| - 1]) * 10 + (s[|s| - 1] as int - '0' as int)
  }

  /** 1000 for a trailing K or k, 1000000 for a trailing M or m, else 1. */
  function Multiplier(s: string): nat
  {
    if s == [] then 1
    else if s[|s| - 1] == 'K' || s[|s| - 1] == 'k' then 1000
    else if s[|s| - 1] == 'M' || s[|s| - 1] == 'm' then 1000000
    else 1
  }

  /** What the input shows and the amount a raise would send. */
  datatype RaiseInput = RaiseInput(Display: string, Amount: nat)

  /** handleRaiseInput; `locale` stands for BigInt's toLocaleString. */
  function HandleRaiseInput(value: string, locale: nat -> string): RaiseInput
  {
    if value == "" then RaiseInput("", 0)
    else
      var amount := DecimalValue(DigitsOf(value)) * Multiplier(value);
      var shown := locale(amount);
      RaiseInput(if shown == "0" then "" else shown, amount)
  }

  lemma {:induction false} DigitsOfAppend(a: string, b: string)
    ensures DigitsOf(a + b) == DigitsOf(a) + DigitsOf(b)
  {
    if a == [] {
      assert a + b == b;
    } else {
      assert (a + b)[0] == a[0];
      assert (a + b)[1..] == a[1..] + b;
      DigitsOfAppend(a[1..], b);
    }
  }

  lemma {:induction false} DigitsOfDigits(s: string)
    requires forall i :: 0 <= i < |s| ==> IsDigit(s[i])
    ensures DigitsOf(s) == s
  {
    if s != [] {
      DigitsOfDigits(s[1..]);
    }
  }

  /** BigInt reads back the decimal text of any amount. */
  lemma {:induction false} DecimalOfNatToString(n: nat)
    ensures DecimalValue(NatToString(n)) == n
    decreases n
  {
    var s := NatToString(n);
    if n >= 10 {
      DecimalOfNatToString(n / 10);
      assert s[..|s| - 1] == NatToString(n / 10);
    }
  }

  /** An amount's digits with a suffix keep only the amount's digits. */
  lemma DigitsOfAmount(n: nat, suffix: string)
    requires suffix in {"", "k", "K", "m", "M"}
    ensures DigitsOf(NatToString(n) + suffix) == NatToString(n)
  {
    DigitsOfAppend(NatToString(n), suffix);
    DigitsOfDigits(NatToString(n));
    assert DigitsOf(suffix) == [];
  }

  lemma MultiplierOfAmount(n: nat, suffix: string)
    requires suffix in {"", "k", "K", "m", "M"}
    ensures Multiplier(NatToString(n) + suffix) ==
      (if suffix in {"k", "K"} then 1000 else if suffix in {"m", "M"} then 1000000 else 1)
  {
    var d := NatToString(n);
    var v := d + suffix;
    if suffix == "" {
      assert v == d;
      assert IsDigit(d[|d| - 1]);
    } else {
      assert v[|v| - 1] == suffix[0];
    }
  }

  /** Typing an amount's digits, optionally followed by a K or M suffix, stages that amount scaled by the suffix. */
  lemma RaiseInputOfAmount(n: nat, suffix: string, locale: nat -> string)
    requires suffix in {"", "k", "K", "m", "M"}
    ensures HandleRaiseInput(NatToString(n) + suffix, locale).Amount ==
      n * (if suffix in {"k", "K"} then 1000 else if suffix in {"m", "M"} then 1000000 else 1)
  {
    DigitsOfAmount(n, suffix);
    MultiplierOfAmount(n, suffix);
    DecimalOfNatToString(n);
  }

  /** Every non-digit is dropped, a decimal point included: "1.5k" stages 15000. */
  lemma DecimalPointDropped(locale: nat -> string)
    ensures HandleRaiseInput("1.5k", locale).Amount == 15000
  {
    assert DigitsOf("1.5k") == "15" by {
      assert "1.5k"[1..] == ".5k" && ".5k"[1..] == "5k" && "5k"[1..] == "k";
    }
    assert "15"[..1] == "1" && "1"[..0] == "";
    assert DecimalValue("15") == 15;
    assert Multiplier("1.5k") == 1000;
  }

  /** An empty input shows nothing and stages nothing; a zero amount is shown as ''. */
  lemma RaiseInputZero(value: string, locale: nat -> string)
    requires locale(0) == "0"
    ensures HandleRaiseInput("", locale) == RaiseInput("", 0)
    ensures HandleRaiseInput(value, locale).Amount == 0 ==> HandleRaiseInput(value, locale).Display == ""
  {
  }

  /** The button labels and the tags they send. */
  function ButtonAction(btn: string): (a: Option<NetAction>)
    ensures a.Some? <==> btn in {"call", "check", "raise", "fold", "allin"}
  {
    if btn == "call" then Some(NetDataCall)
    else if btn == "check" then Some(NetDataCheck)
    else if btn == "raise" then Some(NetDataBet)
    else if btn == "fold" then Some(NetDataFold)
    else if btn == "allin" then Some(NetDataAllIn)
    else None
  }

  class WebAction {
    var Action: NetAction
    var Amount: nat

    constructor (action: NetAction, amount: nat)
      ensures Action == action && Amount == amount
    {
      Action := action;
      Amount := amount;
    }
  }

  class WebPlayer {
    var Name: string
    var ChipCount: nat
    var TablePos: nat
    var Action: WebAction

    constructor (name: string, chipCount: nat, tablePos: nat, action: WebAction)
      ensures Name == name && ChipCount == chipCount && TablePos == tablePos && Action == action
    {
      Name := name;
      ChipCount := chipCount;
      TablePos := tablePos;
      Action := action;
    }
  }

  class WebClient {
    var ID: string
    var Name: string
    var Player: WebPlayer?

    constructor (id: string, name: string, player: WebPlayer?)
      ensures ID == id && Name == name && Player == player
    {
      ID := id;
      Name := name;
      Player := player;
    }
  }

  /**
   * handleButton: for a known label, a shallow copy of the client with a deep copy
   * of its player whose action is the label's tag and the staged amount, sent as the
   * request. The method modifies no existing object, so the shown client stays as it
   * was. A client without a player makes the copy's action write throw.
   */
  method HandleButton(btn: string, client: WebClient, raiseAmount: nat) returns (sent: JsNetData?, copy: WebClient?, threw: bool)
    ensures ButtonAction(btn).None? ==> sent == null && copy == null && !threw
    ensures ButtonAction(btn).Some? && client.Player == null ==> sent == null && threw
    ensures ButtonAction(btn).Some? && client.Player != null ==>
      !threw && sent != null && copy != null && copy.Player != null
      && fresh(sent) && fresh(copy) && fresh(copy.Player) && fresh(copy.Player.Action)
      && sent.Client == copy && sent.Request == ButtonAction(btn).value && sent.Response == 0
      && copy.ID == client.ID && copy.Name == client.Name
      && copy.Player.Name == client.Player.Name && copy.Player.ChipCount == client.Player.ChipCount
      && copy.Player.TablePos == client.Player.TablePos
      && copy.Player.Action.Action == ButtonAction(btn).value && copy.Player.Action.Amount == raiseAmount
  {
    var action := ButtonAction(btn);
    if action.None? {
      return null, null, false;
    }
    var p := client.Player;
    if p == null {
      return null, null, true;
    }
    var a := new WebAction(p.Action.Action, p.Action.Amount);
    var player := new WebPlayer(p.Name, p.ChipCount, p.TablePos, a);
    copy := new WebClient(client.ID, client.Name, player);
    copy.Player.Action.Action := action.value;
    copy.Player.Action.Amount := raiseAmount;
    sent := new JsNetData(copy, action.value, None, null);
    threw := false;
  }
}
