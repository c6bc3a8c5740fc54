/** The bot's conversation buffer: a `collections.deque(maxlen=10)` of message records. */
module History {
  import opened Clock

  /** One buffered chat message: who sent it, its body, and when the bot received it. */
  datatype Record = Record(sender: string, message: string, timestamp: DateTime)

  /** The `maxlen` the buffer is created with. */
  const Capacity: nat := 10

  function Min(a: int, b: int): int {
    if a <= b then a else b
  }

  /** The newest `n` elements of `s` (all of `s` when it is shorter), oldest first. */
  function Last<T>(s: seq<T>, n: nat): (r: seq<T>)
    ensures |r| == Min(n, |s|)
    ensures r == s[|s| - |r|..]
  {
    if |s| <= n then s else s[|s| - n..]
  }

  /** `deque.append(x)` on a deque with `maxlen=cap`: `x` goes on the right, and once the
      deque would outgrow `cap` its leftmost element is dropped. A deque never holds
      more than its `maxlen`, hence the precondition. */
  function BoundedAppend<T>(h: seq<T>, x: T, cap: nat): (r: seq<T>)
    requires |h| <= cap
    ensures |r| <= cap
    ensures |h| < cap ==> r == h + [x]
    ensures |h| == cap > 0 ==> r == h[1..] + [x]
    ensures cap == 0 ==> r == []
  {
    var grown := h + [x];
    if |grown| > cap then grown[1..] else grown
  }

  /** One append keeps the newest `cap` elements of the arrival order. */
  lemma BoundedAppendIsLast<T>(h: seq<T>, x: T, cap: nat)
    requires |h| <= cap
    ensures BoundedAppend(h, x, cap) == Last(h + [x], cap)
  {
  }

  /** Appending `xs` one at a time, as the chat listener does. */
  function AppendAll<T>(h: seq<T>, xs: seq<T>, cap: nat): (r: seq<T>)
    requires |h| <= cap
    ensures |r| <= cap
    decreases |xs|
  {
    if xs == [] then h else AppendAll(BoundedAppend(h, xs[0], cap), xs[1..], cap)
  }

  /** Keeping the newest `n` twice is the same as keeping them once, even with more appended in between. */
  lemma LastOfLast<T>(s: seq<T>, t: seq<T>, n: nat)
    ensures Last(Last(s, n) + t, n) == Last(s + t, n)
  {
    var u := Last(s, n) + t;
    var v := s + t;
    assert u == v[|v| - |u|..];
    var a := Last(u, n);
    var b := Last(v, n);
    assert |a| == |b|;
    assert a == u[|u| - |a|..] == v[|v| - |a|..] == b;
  }

  /** After any sequence of appends the buffer is the newest `cap` records of everything
      that arrived, in arrival order: every other record has been evicted. */
  lemma {:induction false} AppendAllKeepsNewest<T>(h: seq<T>, xs: seq<T>, cap: nat)
    requires |h| <= cap
    ensures AppendAll(h, xs, cap) == Last(h + xs, cap)
    decreases |xs|
  {
    if xs != [] {
      var h' := BoundedAppend(h, xs[0], cap);
      calc {
        AppendAll(h, xs, cap);
        AppendAll(h', xs[1..], cap);
        { AppendAllKeepsNewest(h', xs[1..], cap); }
        Last(h' + xs[1..], cap);
        { BoundedAppendIsLast(h, xs[0], cap); }
        Last(Last(h + [xs[0]], cap) + xs[1..], cap);
        { LastOfLast(h + [xs[0]], xs[1..], cap); }
        Last(h + [xs[0]] + xs[1..], cap);
        { assert h + [xs[0]] + xs[1..] == h + xs; }
        Last(h + xs, cap);
      }
    }
  }

  /** Starting from an empty buffer, `n` arrivals leave exactly the last `min(n, 10)` of them. */
  lemma FromEmpty(xs: seq<Record>)
    ensures AppendAll([], xs, Capacity) == Last(xs, Capacity)
  {
    AppendAllKeepsNewest([], xs, Capacity);
    assert [] + xs == xs;
  }
}
