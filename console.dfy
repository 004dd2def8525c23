/**
 * The console the dispatchers and the menu loops write to. Both the
 * dispatcher's output stream and `System.out` end up on the same console,
 * so one sink records everything, one chunk per `print`/`println` call.
 */
module Console {

  class Sink {
    /** Everything written so far, in order. */
    var written: seq<string>

    constructor()
      ensures written == []
    {
      written := [];
    }

    /** `print(s)`. */
    method Print(s: string)
      modifies this`written
      ensures written == old(written) + [s]
    {
      written := written + [s];
    }

    /** `println(s)`: the text and a line break. */
    method Println(s: string)
      modifies this`written
      ensures written == old(written) + [s + "\n"]
    {
      written := written + [s + "\n"];
    }
  }

  /** Appending a chunk to a transcript made of two parts. */
  lemma AppendChunk(a: seq<string>, b: seq<string>, x: string)
    ensures (a + b) + [x] == a + (b + [x])
  {
  }

  /** Appending is associative. */
  lemma AppendAssoc<T>(a: seq<T>, b: seq<T>, c: seq<T>)
    ensures (a + b) + c == a + (b + c)
  {
  }
}
