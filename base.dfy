/** Values shared by the whole model: bytes, the Python exceptions that the
    protocol code raises or catches, failure-compatible results, and Python's
    truncating slice operations. */
module Base {

  /** One element of a Python `bytes` object. */
  type byte = x: int | 0 <= x < 256

  /** The exceptions the protocol code raises, catches or lets escape. */
  datatype Exception =
    | StructError          // struct.pack of an out-of-range integer, struct.unpack of a short slice
    | UnicodeDecodeError   // bytes.decode('utf-8') of malformed input
    | FileNotFoundError    // open(path, 'rb') of a file that does not exist
    | TransportClosed      // conn.receive() when no further event will arrive

  datatype Option<+T> = None | Some(value: T)

  datatype Result<+T> = Ok(value: T) | Err(error: Exception) {
    predicate IsFailure() { Err? }

    function PropagateFailure<U>(): Result<U>
      requires Err?
    {
      Err(error)
    }

    function Extract(): T
      requires Ok?
    {
      value
    }
  }

  /** How a handler returned: normally, or by raising an exception. */
  datatype Outcome = Done | Raised(error: Exception)

  function Min(a: int, b: int): int { if a <= b then a else b }

  /** Python's `s[:n]` for `n >= 0`: taking past the end yields the whole sequence. */
  function Prefix<T>(s: seq<T>, n: nat): (r: seq<T>)
    ensures |r| == Min(n, |s|)
    ensures n <= |s| ==> r == s[..n]
    ensures r <= s
  {
    s[..Min(n, |s|)]
  }

  /** Python's `s[n:]` for `n >= 0`: skipping past the end yields the empty sequence. */
  function Skip<T>(s: seq<T>, n: nat): (r: seq<T>)
    ensures |r| == |s| - Min(n, |s|)
    ensures Prefix(s, n) + r == s
  {
    s[Min(n, |s|)..]
  }

  /** Python's `s[lo:hi]` for `0 <= lo <= hi`. */
  function Slice<T>(s: seq<T>, lo: nat, hi: nat): (r: seq<T>)
    requires lo <= hi
    ensures r == Prefix(Skip(s, lo), hi - lo)
  {
    s[Min(lo, |s|)..Min(hi, |s|)]
  }

  lemma SkipSkip<T>(s: seq<T>, a: nat, b: nat)
    ensures Skip(Skip(s, a), b) == Skip(s, a + b)
  {
  }

  /** Concatenation regroups. */
  lemma ConcatAssoc<T>(a: seq<T>, b: seq<T>, c: seq<T>)
    ensures a + (b + c) == (a + b) + c
  { }

  /** A second update of the same key replaces the first. */
  lemma UpdateTwice<K, V>(m: map<K, V>, k: K, a: V, b: V)
    ensures m[k := a][k := b] == m[k := b]
  {
  }

  /** The concatenation of a list of byte strings, in order. */
  function Flatten(ss: seq<seq<byte>>): seq<byte>
  {
    if ss == [] then [] else ss[0] + Flatten(ss[1..])
  }

  lemma {:induction false} FlattenAppend(ss: seq<seq<byte>>, s: seq<byte>)
    ensures Flatten(ss + [s]) == Flatten(ss) + s
  {
    if ss == [] {
      assert ss + [s] == [s];
    } else {
      assert (ss + [s])[1..] == ss[1..] + [s];
      FlattenAppend(ss[1..], s);
    }
  }

  /** The file system seen by one side of the transfer: path to contents. */
  type FileStore = map<string, seq<byte>>
}
