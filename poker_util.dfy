/**
 * internal/poker/util.go: chip arithmetic helpers, map flattening, the
 * deferred-call guard used after panics, panic-to-error conversion,
 * random identifiers and padding.
 */
module PokerUtil {
  import opened Common

  /** |x - y| on uint64; each subtraction is guarded by the comparison, so neither wraps. */
  function AbsUInt64(x: uint64, y: uint64): (r: uint64)
    ensures r == IntAbs(x - y)
  {
    if x > y then SubWrap64(x, y) else SubWrap64(y, x)
  }

  /** Same computation on the `Chips` type (an alias of uint64). */
  function AbsChips(x: uint64, y: uint64): (r: uint64)
    ensures r == IntAbs(x - y)
  {
    if x > y then SubWrap64(x, y) else SubWrap64(y, x)
  }

  function MinUInt64(x: uint64, y: uint64): (r: uint64)
    ensures r <= x && r <= y
    ensures r == x || r == y
  {
    if x < y then x else y
  }

  function MinChips(x: uint64, y: uint64): (r: uint64)
    ensures r <= x && r <= y
    ensures r == x || r == y
  {
    if x < y then x else y
  }

  function MaxUInt64(x: uint64, y: uint64): (r: uint64)
    ensures r >= x && r >= y
    ensures r == x || r == y
  {
    if x > y then x else y
  }

  function MaxChips(x: uint64, y: uint64): (r: uint64)
    ensures r >= x && r >= y
    ensures r == x || r == y
  {
    if x > y then x else y
  }

  function MaxInt(x: int64, y: int64): (r: int64)
    ensures r >= x && r >= y
    ensures r == x || r == y
  {
    if x > y then x else y
  }

  /**
   * Collects the values of a name-keyed map in an unspecified (iteration)
   * order. `keys` records the order that was chosen: every key exactly once.
   * A nil map reads as the empty map.
   */
  method PlayerMapToArr<T(==)>(playerMap: map<string, T>) returns (arr: seq<T>, ghost keys: seq<string>)
    ensures |arr| == |playerMap| == |keys|
    ensures forall i, j :: 0 <= i < j < |keys| ==> keys[i] != keys[j]
    ensures forall k :: k in playerMap <==> k in keys
    ensures forall i :: 0 <= i < |keys| ==> keys[i] in playerMap && arr[i] == playerMap[keys[i]]
    ensures forall v :: v in arr <==> v in playerMap.Values
  {
    arr, keys := [], [];
    if |playerMap| == 0 {
      return;
    }
    var rest := playerMap.Keys;
    while rest != {}
      invariant rest <= playerMap.Keys
      invariant |arr| == |keys|
      invariant forall k :: k in playerMap ==> (k in keys <==> k !in rest)
      invariant forall i :: 0 <= i < |keys| ==> keys[i] in playerMap && arr[i] == playerMap[keys[i]]
      invariant forall i, j :: 0 <= i < j < |keys| ==> keys[i] != keys[j]
      invariant |keys| + |rest| == |playerMap|
      decreases |rest|
    {
      var k :| k in rest;
      arr, keys := arr + [playerMap[k]], keys + [k];
      rest := rest - {k};
    }
    forall v | v in playerMap.Values ensures v in arr {
      var k :| k in playerMap && playerMap[k] == v;
      var i :| 0 <= i < |keys| && keys[i] == k;
      assert arr[i] == v;
    }
  }

  /** The value a recovered panic carries: a string, an error, or anything else. */
  datatype PanicValue = StringPanic(text: string) | ErrorPanic(err: Error) | OtherPanic

  /** Records whether `panic` has run, so that deferred calls can be skipped afterwards. */
  class Panic {
    var panicked: bool

    constructor ()
      ensures !panicked
    {
      panicked := false;
    }

    /** Sets `panicked` and then panics with `msg`, returned here as the panic value. */
    method Raise(msg: string) returns (v: PanicValue)
      modifies this
      ensures panicked
      ensures v == StringPanic(msg)
    {
      panicked := true;
      v := StringPanic(msg);
    }

    /** Runs the deferred state change `f` on `s` only when no panic was raised. */
    function IfNoPanic<S>(f: S -> S, s: S): (r: S)
      reads this
      ensures !panicked ==> r == f(s)
      ensures panicked ==> r == s
    {
      if !panicked then f(s) else s
    }
  }

  function PanicRetToError(err: PanicValue): (e: Error)
    ensures err.StringPanic? ==> e.msg == err.text
    ensures err.ErrorPanic? ==> e == err.err
    ensures err.OtherPanic? ==> e.msg == "unknown panic"
  {
    match err
    case StringPanic(t) => Error(t)
    case ErrorPanic(x) => x
    case OtherPanic => Error("unknown panic")
  }

  const Letters: string := "abcdefghijklmnopqrstuvwxyzABCDEFGHIJKLMNOPQRSTUVWXYZ0123456789"

  /**
   * n characters, each chosen from Letters. The random source is modelled by
   * an arbitrary choice; a negative n makes Go's `make` panic (None).
   */
  method RandString(n: int) returns (r: Option<string>)
    ensures n < 0 <==> r.None?
    ensures r.Some? ==> |r.value| == n
    ensures r.Some? ==> forall i :: 0 <= i < |r.value| ==> r.value[i] in Letters
  {
    if n < 0 {
      return None;
    }
    var b: string := [];
    while |b| < n
      invariant |b| <= n
      invariant forall i :: 0 <= i < |b| ==> b[i] in Letters
    {
      assert Letters[0] in Letters;
      var c :| c in Letters;
      b := b + [c];
    }
    r := Some(b);
  }

  /** `count` spaces, built one byte at a time as the source's buffer loop does. */
  method Spaces(count: int) returns (b: string)
    ensures |b| == if count > 0 then count else 0
    ensures forall i :: 0 <= i < |b| ==> b[i] == ' '
  {
    b := [];
    if count > 0 {
      var i := 0;
      while i < count
        invariant 0 <= i <= count
        invariant |b| == i
        invariant forall j :: 0 <= j < i ==> b[j] == ' '
      {
        b := b + [' '];
        i := i + 1;
      }
    }
  }

  /**
   * Pads `s` on the left with spaces to `w` display cells. The display width
   * (uniseg.StringWidth in the source) is supplied as `width`.
   */
  method FillLeft(s: string, w: int, width: string -> nat) returns (r: string)
    ensures var pad := if w - width(s) > 0 then w - width(s) else 0;
      |r| == |s| + pad && r[pad..] == s && forall i :: 0 <= i < pad ==> r[i] == ' '
  {
    var count := w - width(s);
    if count > 0 {
      var b := Spaces(count);
      return b + s;
    }
    return s;
  }

  /** Pads `s` on the right with spaces to `w` display cells. */
  method FillRight(s: string, w: int, width: string -> nat) returns (r: string)
    ensures var pad := if w - width(s) > 0 then w - width(s) else 0;
      |r| == |s| + pad && r[..|s|] == s && forall i :: |s| <= i < |r| ==> r[i] == ' '
  {
    var count := w - width(s);
    if count > 0 {
      var b := Spaces(count);
      return s + b;
    }
    return s;
  }
}
