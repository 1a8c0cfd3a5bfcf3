/**
 * util.go of the legacy root package: the same helpers as
 * internal/poker/util.go, except that `Panic` installs its two operations
 * as closures in `Init`.
 */
module LegacyUtil {
  import opened Common
  import PokerUtil

  function AbsUInt64(x: uint64, y: uint64): (r: uint64)
    ensures r == IntAbs(x - y)
  {
    PokerUtil.AbsUInt64(x, y)
  }

  function AbsChips(x: uint64, y: uint64): (r: uint64)
    ensures r == IntAbs(x - y)
  {
    PokerUtil.AbsChips(x, y)
  }

  function MinUInt64(x: uint64, y: uint64): (r: uint64)
    ensures r <= x && r <= y && (r == x || r == y)
  {
    PokerUtil.MinUInt64(x, y)
  }

  function MinChips(x: uint64, y: uint64): (r: uint64)
    ensures r <= x && r <= y && (r == x || r == y)
  {
    PokerUtil.MinChips(x, y)
  }

  function MaxUInt64(x: uint64, y: uint64): (r: uint64)
    ensures r >= x && r >= y && (r == x || r == y)
  {
    PokerUtil.MaxUInt64(x, y)
  }

  function MaxChips(x: uint64, y: uint64): (r: uint64)
    ensures r >= x && r >= y && (r == x || r == y)
  {
    PokerUtil.MaxChips(x, y)
  }

  function MaxInt(x: int64, y: int64): (r: int64)
    ensures r >= x && r >= y && (r == x || r == y)
  {
    PokerUtil.MaxInt(x, y)
  }

  /** The legacy copy of the map collector; `keys` records the iteration order chosen. */
  method PlayerMapToArr<T(==)>(playerMap: map<string, T>) returns (arr: seq<T>, ghost keys: seq<string>)
    ensures |arr| == |playerMap| == |keys|
    ensures forall i, j :: 0 <= i < j < |keys| ==> keys[i] != keys[j]
    ensures forall k :: k in playerMap <==> k in keys
    ensures forall i :: 0 <= i < |keys| ==> keys[i] in playerMap && arr[i] == playerMap[keys[i]]
    ensures forall v :: v in arr <==> v in playerMap.Values
  {
    arr, keys := PokerUtil.PlayerMapToArr(playerMap);
  }

  /** The legacy guard: `Init` clears `panicked` and installs `panic`/`ifNoPanic`. */
  class Panic {
    var panicked: bool
    var initialised: bool

    constructor ()
      ensures !initialised
    {
      initialised := false;
    }

    method Init()
      modifies this
      ensures initialised && !panicked
    {
      panicked := false;
      initialised := true;
    }

    method Raise(msg: string) returns (v: PokerUtil.PanicValue)
      requires initialised
      modifies this
      ensures panicked && initialised
      ensures v == PokerUtil.StringPanic(msg)
    {
      panicked := true;
      v := PokerUtil.StringPanic(msg);
    }

    function IfNoPanic<S>(f: S -> S, s: S): (r: S)
      requires initialised
      reads this
      ensures !panicked ==> r == f(s)
      ensures panicked ==> r == s
    {
      if !panicked then f(s) else s
    }
  }

  function PanicRetToError(err: PokerUtil.PanicValue): (e: Error)
    ensures err.StringPanic? ==> e.msg == err.text
    ensures err.ErrorPanic? ==> e == err.err
    ensures err.OtherPanic? ==> e.msg == "unknown panic"
  {
    PokerUtil.PanicRetToError(err)
  }

  method RandString(n: int) returns (r: Option<string>)
    ensures n < 0 <==> r.None?
    ensures r.Some? ==> |r.value| == n
    ensures r.Some? ==> forall i :: 0 <= i < |r.value| ==> r.value[i] in PokerUtil.Letters
  {
    r := PokerUtil.RandString(n);
  }

  method FillLeft(s: string, w: int, width: string -> nat) returns (r: string)
    ensures var pad := if w - width(s) > 0 then w - width(s) else 0;
      |r| == |s| + pad && r[pad..] == s && forall i :: 0 <= i < pad ==> r[i] == ' '
  {
    r := PokerUtil.FillLeft(s, w, width);
  }

  method FillRight(s: string, w: int, width: string -> nat) returns (r: string)
    ensures var pad := if w - width(s) > 0 then w - width(s) else 0;
      |r| == |s| + pad && r[..|s|] == s && forall i :: |s| <= i < |r| ==> r[i] == ' '
  {
    r := PokerUtil.FillRight(s, w, width);
  }
}
