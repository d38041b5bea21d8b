/** include/utils.hpp: the protocol constants, vectorToString and the two
    select_randomly overloads. */
module Util {
  import opened Words
  import opened Address

  const HDR_TTL: U8 := 255
  const SERVER_PORT: U16 := 862
  const CHECK_TIMES: nat := 100
  const IPV4: U8 := 4
  const IPV6: U8 := 6

  /** The TTL and TOS bytes read from a received IP header. */
  datatype IPHeader = IPHeader(ttl: U8, tos: U8)

  // ---------------------------------------------------------------------
  // vectorToString
  // ---------------------------------------------------------------------

  /** What an ostream_iterator writes: every element rendered with `<<`, each
      one followed by the delimiter. */
  function Streamed<T>(vec: seq<T>, render: T -> string, delim: string): (s: string)
    ensures |vec| > 0 ==> |s| >= |delim|
  {
    if |vec| == 0 then ""
    else Streamed(vec[..|vec| - 1], render, delim) + render(vec[|vec| - 1]) + delim
  }

  /** The elements joined by `sep`, with no separator at either end. */
  function Join<T>(vec: seq<T>, render: T -> string, sep: string): string
  {
    if |vec| == 0 then ""
    else if |vec| == 1 then render(vec[0])
    else Join(vec[..|vec| - 1], render, sep) + sep + render(vec[|vec| - 1])
  }

  /** substr(0, size() - 1): the last character dropped; on an empty string
      the unsigned size() - 1 is npos, which keeps the (empty) string. */
  function DropLast(s: string): (r: string)
    ensures |s| > 0 ==> |r| == |s| - 1 && r == s[..|s| - 1]
    ensures |s| == 0 ==> r == ""
  {
    if |s| == 0 then "" else s[..|s| - 1]
  }

  /** The string vectorToString returns. The stream is given sep.c_str(), so
      the delimiter is `sep` up to its first NUL character. */
  function VectorString<T>(vec: seq<T>, render: T -> string, sep: string): string
  {
    DropLast(Streamed(vec, render, CString(sep)))
  }

  /** vectorToString: copy each element into a string stream, then drop the
      final character. */
  method VectorToString<T>(vec: seq<T>, render: T -> string, sep: string) returns (s: string)
    ensures s == VectorString(vec, render, sep)
  {
    var delim := CString(sep);
    var out := "";
    for i := 0 to |vec|
      invariant out == Streamed(vec[..i], render, delim)
    {
      assert vec[..i + 1][..i] == vec[..i];
      out := out + render(vec[i]) + delim;
    }
    assert vec[..|vec|] == vec;
    if |out| == 0 {
      s := "";
    } else {
      s := out[..|out| - 1];
    }
  }

  /** A non-empty stream is the joined elements followed by one delimiter. */
  lemma {:induction false} StreamedIsJoin<T>(vec: seq<T>, render: T -> string, delim: string)
    requires |vec| > 0
    ensures Streamed(vec, render, delim) == Join(vec, render, delim) + delim
  {
    if |vec| > 1 {
      var init := vec[..|vec| - 1];
      assert init[..|init| - 1] == vec[..|vec| - 2];
      StreamedIsJoin(init, render, delim);
    } else {
      assert vec[..0] == [];
    }
  }

  /** An empty vector gives the empty string. */
  lemma EmptyVector<T>(render: T -> string, sep: string)
    ensures VectorString([], render, sep) == ""
  {
  }

  /** With a one-character separator (as the client's " " is), the result is
      the elements joined by it, with no trailing separator. */
  lemma OneCharacterSeparator<T>(vec: seq<T>, render: T -> string, c: char)
    requires c != '\0'
    ensures VectorString(vec, render, [c]) == Join(vec, render, [c])
  {
    CStringOfNulFree([c]);
    if |vec| > 0 {
      StreamedIsJoin(vec, render, [c]);
      var j := Join(vec, render, [c]);
      assert (j + [c])[..|j + [c]| - 1] == j;
    }
  }

  /** With a longer separator only its last character is dropped from the end:
      the remaining characters of the final separator stay. */
  lemma LongSeparator<T>(vec: seq<T>, render: T -> string, sep: string)
    requires |vec| > 0 && |CString(sep)| >= 1
    ensures var d := CString(sep);
      VectorString(vec, render, sep) == Join(vec, render, d) + d[..|d| - 1]
  {
    var d := CString(sep);
    StreamedIsJoin(vec, render, d);
    var j := Join(vec, render, d);
    assert (j + d)[..|j + d| - 1] == j + d[..|d| - 1];
  }

  /** With an empty separator (or one that starts with NUL) nothing separates
      the elements and the last character of the last element is lost. */
  lemma EmptySeparator<T>(vec: seq<T>, render: T -> string, sep: string)
    requires |vec| > 0 && CString(sep) == ""
    ensures VectorString(vec, render, sep) == DropLast(Join(vec, render, ""))
  {
    StreamedIsJoin(vec, render, "");
    assert Join(vec, render, "") + "" == Join(vec, render, "");
  }

  // ---------------------------------------------------------------------
  // select_randomly
  // ---------------------------------------------------------------------

  /** The offset chosen from a range of n elements for one draw of the
      generator: uniform_int_distribution<>(0, n - 1) is abstracted as the draw
      reduced modulo n. An empty range gives the distribution the bounds
      (0, -1), which is undefined, so callers must pass n > 0. */
  function SelectIndex(n: nat, draw: nat): (i: nat)
    requires n > 0
    ensures 0 <= i < n
  {
    draw % n
  }

  /** The element select_randomly's iterator designates: never `end`. */
  function SelectRandomly<T>(range: seq<T>, draw: nat): (x: T)
    requires |range| > 0
    ensures x in range
  {
    range[SelectIndex(|range|, draw)]
  }

  /** The static std::mt19937 of the seeded overload. It is built on the first
      call only, from that call's seed, or from the random device when the seed
      is 0; every later call reuses it, whatever seed it passes.
      `stream(seed, k)` is the k-th output of a generator built from `seed`. */
  class StaticGenerator {
    var initialised: bool
    var seed: U32
    var draws: nat
    const deviceSeed: U32
    const stream: (U32, nat) -> nat

    constructor(deviceSeed: U32, stream: (U32, nat) -> nat)
      ensures !initialised && draws == 0
      ensures this.deviceSeed == deviceSeed && this.stream == stream
    {
      initialised := false;
      seed := 0;
      draws := 0;
      this.deviceSeed := deviceSeed;
      this.stream := stream;
    }

    /** The seeded select_randomly: the offset within a range of n elements. */
    method Select(n: nat, requestedSeed: U32) returns (i: nat)
      requires n > 0
      modifies this
      ensures initialised
      ensures old(initialised) ==> seed == old(seed)
      ensures !old(initialised) ==> seed == (if requestedSeed == 0 then deviceSeed else requestedSeed)
      ensures draws == old(draws) + 1
      ensures i == SelectIndex(n, stream(seed, old(draws)))
      ensures i < n
    {
      if !initialised {
        seed := if requestedSeed == 0 then deviceSeed else requestedSeed;
        initialised := true;
      }
      i := SelectIndex(n, stream(seed, draws));
      draws := draws + 1;
    }
  }
}
