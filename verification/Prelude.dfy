/** Option, Result, machine integers and small facts about sets and sequences used by every model. */
module Prelude {

  datatype Option<+T> = None | Some(value: T)

  datatype Result<+T, +E> = Ok(value: T) | Err(error: E)

  const U64_MAX: nat := 0xFFFF_FFFF_FFFF_FFFF

  type u64 = n: nat | n <= 0xFFFF_FFFF_FFFF_FFFF

  type u16 = n: nat | n <= 0xFFFF

  type byte = n: nat | n <= 0xFF

  type Bytes = seq<byte>

  /** A 32-byte digest; only equality of digests is ever used. */
  type Hash = nat

  function Last<T>(s: seq<T>): T
    requires s != []
  {
    s[|s| - 1]
  }

  function DropLast<T>(s: seq<T>): seq<T>
    requires s != []
  {
    s[..|s| - 1]
  }

  function BigEndian(b: Bytes): nat {
    if b == [] then 0 else BigEndian(b[..|b| - 1]) * 256 + b[|b| - 1]
  }

  lemma {:induction false} FindMax(keys: set<nat>) returns (m: nat)
    requires keys != {}
    ensures m in keys && forall k | k in keys :: k <= m
    decreases |keys|
  {
    m :| m in keys;
    var rest := keys - {m};
    assert forall k | k in keys :: k == m || k in rest;
    if rest != {} {
      var n := FindMax(rest);
      m := if m <= n then n else m;
    }
  }

  lemma {:induction false} FindMin(keys: set<nat>) returns (m: nat)
    requires keys != {}
    ensures m in keys && forall k | k in keys :: m <= k
    decreases |keys|
  {
    m :| m in keys;
    var rest := keys - {m};
    assert forall k | k in keys :: k == m || k in rest;
    if rest != {} {
      var n := FindMin(rest);
      m := if m <= n then m else n;
    }
  }

  /** The key that `BTreeMap::last_key_value` finds. */
  function MaxKey(keys: set<nat>): (m: nat)
    requires keys != {}
    ensures m in keys
    ensures forall k | k in keys :: k <= m
  {
    assert exists m :: m in keys && forall k | k in keys :: k <= m by {
      var w := FindMax(keys);
    }
    var m :| m in keys && forall k | k in keys :: k <= m;
    m
  }

  /** The key that `BTreeMap::pop_first` removes. */
  function MinKey(keys: set<nat>): (m: nat)
    requires keys != {}
    ensures m in keys
    ensures forall k | k in keys :: m <= k
  {
    assert exists m :: m in keys && forall k | k in keys :: m <= k by {
      var w := FindMin(keys);
    }
    var m :| m in keys && forall k | k in keys :: m <= k;
    m
  }
}
