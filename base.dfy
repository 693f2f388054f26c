/** Small shared vocabulary: optional values, Java's fixed-width integers and
    counting in effect logs. */
module Base {

  /** A Java reference that may be null. */
  datatype Option<+T> = None | Some(value: T) {
    function GetOr(default: T): T {
      match this
      case Some(v) => v
      case None => default
    }
  }

  const INT32_MIN: int := -0x8000_0000
  const INT32_MAX: int := 0x7FFF_FFFF

  /** Java `int`. */
  type Int32 = x: int | INT32_MIN <= x <= INT32_MAX

  /** Java's narrowing of an integer to `int`: keep the low 32 bits, read as two's complement. */
  function WrapInt32(n: int): (r: Int32)
    ensures (r - n) % 0x1_0000_0000 == 0
    ensures INT32_MIN <= n <= INT32_MAX ==> r == n
  {
    var m := n % 0x1_0000_0000;
    if m <= INT32_MAX then m else m - 0x1_0000_0000
  }

  /** An opaque platform or library handle (a non-null Java reference). */
  datatype Handle = Handle(id: nat)

  /** A client's WebSocket connection, compared by identity. */
  datatype Conn = Conn(id: nat)

  /** Number of positions of `s` that hold `x`. */
  function Count<T(==)>(s: seq<T>, x: T): (n: nat)
    ensures n <= |s|
    ensures n == 0 <==> x !in s
  {
    if s == [] then 0 else (if s[0] == x then 1 else 0) + Count(s[1..], x)
  }

  lemma {:induction false} CountAppend<T>(s: seq<T>, t: seq<T>, x: T)
    ensures Count(s + t, x) == Count(s, x) + Count(t, x)
  {
    if s == [] {
      assert s + t == t;
    } else {
      assert (s + t)[1..] == s[1..] + t;
      CountAppend(s[1..], t, x);
    }
  }
}
