/** Values shared by every component of the model: optional values (a C pointer that may be
    NULL) and JSON documents as the JSON library presents them. */
module Base {

  datatype Option<+T> = None | Some(value: T)

  /** A parsed JSON value. Objects keep their members in document order, as section 4 of
      RFC 8259 lets an implementation do and as the library's index accessors expose them. */
  datatype Json =
    | Null
    | Bool(b: bool)
    | Number(value: real)
    | String(text: string)
    | Array(items: seq<Json>)
    | Object(members: seq<(string, Json)>)

  const INT_MAX := 0x7FFF_FFFF

  predicate FitsInt(n: int) {
    -INT_MAX - 1 <= n <= INT_MAX
  }

  /** A C int. */
  type Int = n: int | -INT_MAX - 1 <= n <= INT_MAX

  /** The low 32 bits of a number, as an int. */
  function LowInt(n: nat): (r: Int) {
    var low := n % 0x1_0000_0000;
    if low > INT_MAX then low - 0x1_0000_0000 else low
  }

  /** The library's parser and serialisers, left abstract. Either may fail. `overflow` is what the
      machine makes of a double that no int can hold, which C leaves undefined. */
  datatype Codec = Codec(
    parse: string -> Option<Json>, serialize: Json -> Option<string>, pretty: Json -> string, overflow: real -> Int)

  /** (int) of a double: towards zero, if an int can hold that. */
  function ToInt(codec: Codec, x: real): (n: Int) {
    var towardsZero := if x >= 0.0 then x.Floor else -(-x).Floor;
    if FitsInt(towardsZero) then towardsZero else codec.overflow(x)
  }

  /** Within the range of an int the conversion drops the fraction, and nothing else. */
  lemma ToIntDropsFraction(codec: Codec, x: real)
    requires -2147483649.0 < x < 2147483648.0
    ensures var n: int := ToInt(codec, x);
            (x >= 0.0 ==> 0 <= n && n as real <= x < n as real + 1.0) && (x <= 0.0 ==> n <= 0 && n as real - 1.0 < x <= n as real)
  {
  }

  /** The low 32 bits differ from the number by a multiple of 2^32. */
  lemma LowIntWraps(n: nat)
    ensures (n - LowInt(n)) % 0x1_0000_0000 == 0
  {
    var k, low := n / 0x1_0000_0000, n % 0x1_0000_0000;
    assert n == k * 0x1_0000_0000 + low;
    if low > 0x7FFF_FFFF { assert n - LowInt(n) == (k + 1) * 0x1_0000_0000; } else { assert n - LowInt(n) == k * 0x1_0000_0000; }
  }

  predicate UniqueKeys(members: seq<(string, Json)>) {
    forall i, j :: 0 <= i < j < |members| ==> members[i].0 != members[j].0
  }

  /** Index of the first member with the given key, or the number of members. */
  function IndexOf(members: seq<(string, Json)>, key: string): (i: nat)
    ensures i <= |members|
    ensures i < |members| ==> members[i].0 == key
    ensures forall j :: 0 <= j < i ==> members[j].0 != key
  {
    if members == [] then 0
    else if members[0].0 == key then 0
    else
      var k := IndexOf(members[1..], key);
      assert forall j :: 1 <= j < k + 1 ==> members[j] == members[1..][j - 1];
      1 + k
  }

  function Member(members: seq<(string, Json)>, key: string): Option<Json> {
    var i := IndexOf(members, key);
    if i < |members| then Some(members[i].1) else None
  }

  /** Replaces the value of an existing key in place, or appends the pair. */
  function SetMember(members: seq<(string, Json)>, key: string, value: Json): (r: seq<(string, Json)>) {
    var i := IndexOf(members, key);
    if i < |members| then members[i := (key, value)] else members + [(key, value)]
  }

  /** The index of a key is the only position at which the key stands first. */
  lemma IndexOfIs(members: seq<(string, Json)>, key: string, i: nat)
    requires i <= |members|
    requires i < |members| ==> members[i].0 == key
    requires forall j :: 0 <= j < i ==> members[j].0 != key
    ensures IndexOf(members, key) == i
  {
  }

  /** SetMember changes what one key maps to and nothing else, and keeps keys unique. */
  lemma SetMemberSets(members: seq<(string, Json)>, key: string, value: Json, other: string)
    ensures Member(SetMember(members, key, value), other) == if other == key then Some(value) else Member(members, other)
    ensures UniqueKeys(members) ==> UniqueKeys(SetMember(members, key, value))
  {
    var r := SetMember(members, key, value);
    var i := IndexOf(members, key);
    if other == key {
      IndexOfIs(r, key, i);
    } else {
      var j := IndexOf(members, other);
      if j < |members| {
        IndexOfIs(r, other, j);
      } else {
        IndexOfIs(r, other, |r|);
      }
    }
    if UniqueKeys(members) && i == |members| {
      forall a, b | 0 <= a < b < |r| ensures r[a].0 != r[b].0 {
        assert members[a].0 != key;
      }
    }
  }
}
