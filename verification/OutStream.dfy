/** Output streams: a cached function stream, an uncached one, and a bounded memory buffer that ends in NUL. */
module OutStream {
  datatype Kind = Function | FunctionNoCache | Memory

  class Stream {
    const kind: Kind
    const cells: array<char>   // the cache of a function stream, the buffer of a memory stream
    var pos: nat
    var sink: seq<char>        // what the write function has received
    ghost var emitted: seq<char>

    /**
     The emitted characters are in the sink and the cache, or are the ones that fit the buffer. A function stream
     without a cache cell loses everything.
     */
    ghost predicate Valid()
      reads this, cells
    {
      match kind
      case Function =>
        if cells.Length == 0 then pos == 0 && sink == []
        else pos < cells.Length && sink + cells[..pos] == emitted
      case FunctionNoCache => sink == emitted
      case Memory =>
        && pos == (if |emitted| <= cells.Length then |emitted| else cells.Length)
        && cells[..pos] == emitted[..pos] && sink == []
    }

    constructor (kind: Kind, cells: array<char>)
      ensures Valid() && this.kind == kind && this.cells == cells && emitted == []
    {
      this.kind, this.cells := kind, cells;
      pos, sink, emitted := 0, [], [];
    }

    /** `streamout_in_byte`: a newline or a full cache flushes; a full buffer drops. */
    method PutByte(ch: char)
      requires Valid()
      modifies this, cells
      ensures Valid() && emitted == old(emitted) + [ch]
      ensures kind.Function? && ch == '\n' && cells.Length > 0 ==> sink == emitted
    {
      emitted := emitted + [ch];
      match kind {
        case Function =>
          var out := false;
          if pos < cells.Length {
            cells[pos] := ch;
            pos := pos + 1;
            if ch == '\n' { out := true; }
          }
          assert cells.Length > 0 ==> cells[..pos] == old(cells[..pos]) + [ch];
          if pos == cells.Length || out {
            sink := sink + cells[..pos];
            pos := 0;
          }
        case FunctionNoCache =>
          sink := sink + [ch];
        case Memory =>
          if pos < cells.Length {
            cells[pos] := ch;
            pos := pos + 1;
            assert cells[..pos] == old(cells[..pos]) + [ch];
          }
      }
    }

    /**
     `streamout_finish`. The write function has then received everything, unless there is no cache cell; a memory
     buffer of size n holds the first n - 1 emitted characters at most, followed by NUL; an empty one is not touched.
     */
    method Finish()
      requires Valid()
      modifies this, cells
      ensures emitted == old(emitted)
      ensures !kind.Memory? ==> (sink == emitted <==> !(kind.Function? && cells.Length == 0 && emitted != []))
      ensures kind.Memory? && cells.Length > 0 ==>
                var n := if |emitted| < cells.Length then |emitted| else cells.Length - 1;
                && cells[..n] == emitted[..n] && cells[n] == '\0'
                && forall k :: n < k < cells.Length ==> cells[k] == old(cells[k])
    {
      match kind {
        case Function =>
          if pos > 0 {
            sink := sink + cells[..pos];
            pos := 0;
          }
        case FunctionNoCache =>
        case Memory =>
          if cells.Length > 0 {
            if pos < cells.Length {
              cells[pos] := '\0';
            } else {
              cells[cells.Length - 1] := '\0';
              assert cells[..cells.Length - 1] == old(cells[..cells.Length])[..cells.Length - 1];
            }
          }
      }
    }

    /** A run of one character, as in the padding loops. */
    method Repeat(ch: char, count: int) returns (n: nat)
      requires Valid()
      modifies this, cells
      ensures Valid() && n == (if count > 0 then count else 0) && emitted == old(emitted) + Run(ch, n)
    {
      n := 0;
      while n < count
        invariant Valid() && n <= (if count > 0 then count else 0) && emitted == old(emitted) + Run(ch, n)
      {
        PutByte(ch);
        n := n + 1;
      }
    }

    method PutAll(s: seq<char>) returns (n: nat)
      requires Valid()
      modifies this, cells
      ensures Valid() && n == |s| && emitted == old(emitted) + s
    {
      n := 0;
      while n < |s|
        invariant Valid() && n <= |s| && emitted == old(emitted) + s[..n]
      {
        PutByte(s[n]);
        n := n + 1;
      }
      assert s[..n] == s;
    }
  }

  function Run(ch: char, n: nat): (s: seq<char>)
    ensures |s| == n && forall i :: 0 <= i < n ==> s[i] == ch
  {
    if n == 0 then [] else Run(ch, n - 1) + [ch]
  }
}
