/** amdGpuQueryFenceInfo of core/gpudridebug.c: a reader of nested loops over the lines of
    amdgpu_fence_info, whose inner loop consumes the header of the next section. */
module FenceInfo {
  import opened Options

  /** Which strstr test of the inner loop a line meets first. */
  datatype Key = Emitted | Trailing | Signaled | Preempted | Reset | Both | Other

  datatype Header = Header(id: int, token: string)

  /** A line by what the reader can tell of it: whether it scans as a header, with what
      number and name token; whether it begins with three dashes; its key; and the number
      sscanf finds in it for that key, if any. */
  datatype Line = Line(header: Option<Header>, dashes: bool, key: Key, number: Option<nat>)

  datatype Info = Info(
    ringid: int, emitted: nat, emittedTrial: nat, trailing: nat, signaled: nat, preempted: nat, reset: nat, both: nat)

  const CLEARED := Info(0, 0, 0, 0, 0, 0, 0, 0)

  /** The open file. */
  class File {
    const lines: seq<Line>
    const endsWithNewline: bool
    var position: nat
    var eof: bool

    constructor (lines: seq<Line>, endsWithNewline: bool)
      ensures this.lines == lines && this.endsWithNewline == endsWithNewline && Valid()
      ensures position == 0 && !eof
    {
      this.lines, this.endsWithNewline := lines, endsWithNewline;
      position, eof := 0, false;
    }

    ghost predicate Valid()
      reads this
    {
      position <= |lines| && (eof ==> position == |lines|)
    }

    ghost function Rest(): seq<Line>
      requires Valid()
      reads this
    {
      lines[position..]
    }

    // fgets: the end of the file is noticed when a read runs into it. A failed read leaves
    // the buffer alone.
    method GetLine(buff: Line) returns (ok: bool, line: Line)
      requires Valid()
      modifies this
      ensures Valid()
      ensures ok <==> old(Rest()) != []
      ensures ok ==> line == old(Rest())[0] && Rest() == old(Rest())[1..]
      ensures ok ==> (eof <==> Rest() == [] && !endsWithNewline)
      ensures !ok ==> line == buff && eof && Rest() == []
    {
      ok, line := position < |lines|, buff;
      if ok {
        line := lines[position];
        position := position + 1;
        eof := position == |lines| && !endsWithNewline;
      } else {
        eof := true;
      }
    }
  }

  // One pass through the chain of strstr tests; n counts the "emitted" lines before it.
  function Take(line: Line, n: nat, info: Info): Info {
    if line.number.None? then info
    else
      var v := line.number.value;
      match line.key
      case Emitted => if n == 0 then info.(emitted := v) else if n == 1 then info.(emittedTrial := v) else info
      case Trailing => info.(trailing := v)
      case Signaled => info.(signaled := v)
      case Preempted => info.(preempted := v)
      case Reset => info.(reset := v)
      case Both => info.(both := v)
      case Other => info
  }

  function Tally(line: Line, n: nat): nat {
    if line.key.Emitted? then n + 1 else n
  }

  predicate Matches(line: Line, shortname: string) {
    line.header.Some? && shortname <= line.header.value.token
  }

  function Seen(line: Line, info: Info): Info {
    if line.header.Some? then info.(ringid := line.header.value.id) else info
  }

  // The two loops as functions of the lines that are left.
  function Outer(rest: seq<Line>, newline: bool, shortname: string, info: Info): Info
    decreases |rest|, 1
  {
    if rest == [] then info
    else
      var next := Seen(rest[0], info);
      if Matches(rest[0], shortname) then Inner(rest[1..], newline, shortname, rest[0], 0, next)
      else Outer(rest[1..], newline, shortname, next)
  }

  function Inner(rest: seq<Line>, newline: bool, shortname: string, buff: Line, n: nat, info: Info): Info
    decreases |rest|, 2
  {
    if rest == [] then Take(buff, n, info)
    else
      var next := Take(rest[0], n, info);
      if rest[1..] == [] && !newline then next
      else if rest[0].dashes then Outer(rest[1..], newline, shortname, next)
      else Inner(rest[1..], newline, shortname, rest[0], Tally(rest[0], n), next)
  }

  method QueryFenceInfo(file: File, shortname: string) returns (info: Info)
    requires file.Valid() && file.position == 0 && !file.eof
    modifies file
    ensures info == Outer(file.lines, file.endsWithNewline, shortname, Info(0, 0, 0, 0, 0, 0, 0, 0))
  {
    info := CLEARED;
    var buff := Line(None, false, Other, None);
    ghost var goal := Outer(file.lines, file.endsWithNewline, shortname, CLEARED);
    var ok := true;
    while !file.eof && ok
      invariant file.Valid()
      invariant goal == Outer(file.Rest(), file.endsWithNewline, shortname, info)
      invariant (file.eof || !ok) ==> file.Rest() == []
      decreases |file.Rest()|, ok
    {
      ok, buff := file.GetLine(buff);
      if ok && buff.header.Some? {
        info := info.(ringid := buff.header.value.id);
        if shortname <= buff.header.value.token {
          var emittedIndex := 0;
          var again := true;
          while again
            invariant file.Valid()
            invariant again ==> goal == Inner(file.Rest(), file.endsWithNewline, shortname, buff, emittedIndex, info)
            invariant !again ==> goal == Outer(file.Rest(), file.endsWithNewline, shortname, info)
            invariant file.eof ==> file.Rest() == []
            invariant |file.Rest()| < old(|file.Rest()|)
            decreases |file.Rest()|, again && !file.eof, again
          {
            var got;
            got, buff := file.GetLine(buff);
            info := Take(buff, emittedIndex, info);
            emittedIndex := Tally(buff, emittedIndex);
            again := !file.eof && !buff.dashes;
          }
        }
      }
    }
  }
}
