/** What the fence query means: the file as a stream of sections, one for each ring. */
module FenceSections {
  import opened Options
  import opened FenceInfo

  /** A ring's section: the ring's number and name in the header, then its body. */
  datatype Section = Section(id: int, name: string, body: seq<Line>)

  // "--- ring %d (%s) ---": the name token runs up to the next blank, so it ends in the parenthesis.
  function HeaderLine(s: Section): Line {
    Line(Some(Header(s.id, s.name + ")")), true, Other, None)
  }

  ghost predicate WellFormed(s: Section) {
    forall i :: 0 <= i < |s.body| ==> s.body[i].header.None? && !s.body[i].dashes
  }

  function Lines(sections: seq<Section>): seq<Line> {
    if sections == [] then []
    else [HeaderLine(sections[0])] + (sections[0].body + Lines(sections[1..]))
  }

  // ---------- what a section says ----------

  // The number on the k-th "emitted" line, or otherwise when there is none.
  ghost function NthEmitted(body: seq<Line>, k: nat, otherwise: nat): nat {
    if body == [] then otherwise
    else if !body[0].key.Emitted? then NthEmitted(body[1..], k, otherwise)
    else if k > 0 then NthEmitted(body[1..], k - 1, otherwise)
    else if body[0].number.Some? then body[0].number.value
    else otherwise
  }

  // The number on the last line of that kind that has one, or otherwise when there is none.
  ghost function Latest(body: seq<Line>, key: Key, otherwise: nat): nat {
    if body == [] then otherwise
    else
      var last := body[|body| - 1];
      if last.key == key && last.number.Some? then last.number.value else Latest(body[..|body| - 1], key, otherwise)
  }

  ghost function EmittedLines(body: seq<Line>): nat {
    if body == [] then 0 else EmittedLines(body[..|body| - 1]) + if body[|body| - 1].key.Emitted? then 1 else 0
  }

  // A section's counters; those it does not mention are as before.
  ghost function Counters(body: seq<Line>, before: Info): Info {
    Info(before.ringid, NthEmitted(body, 0, before.emitted), NthEmitted(body, 1, before.emittedTrial),
         Latest(body, Trailing, before.trailing), Latest(body, Signaled, before.signaled),
         Latest(body, Preempted, before.preempted), Latest(body, Reset, before.reset),
         Latest(body, Both, before.both))
  }

  // ---------- the loops on one body ----------

  ghost function TakeAll(body: seq<Line>, info: Info): Info {
    if body == [] then info
    else
      var front := body[..|body| - 1];
      Take(body[|body| - 1], EmittedLines(front), TakeAll(front, info))
  }

  lemma {:induction false} NthEmittedSnoc(body: seq<Line>, last: Line, k: nat, otherwise: nat)
    ensures NthEmitted(body + [last], k, otherwise) ==
            if EmittedLines(body) == k && last.key.Emitted? && last.number.Some? then last.number.value
            else NthEmitted(body, k, otherwise)
    ensures EmittedLines(body) <= k ==> NthEmitted(body, k, otherwise) == otherwise
  {
    if body == [] {
      assert body + [last] == [last] && [last][1..] == [];
    } else {
      EmittedLinesCons(body);
      assert (body + [last])[1..] == body[1..] + [last];
      if !body[0].key.Emitted? {
        NthEmittedSnoc(body[1..], last, k, otherwise);
      } else if k > 0 {
        NthEmittedSnoc(body[1..], last, k - 1, otherwise);
      }
    }
  }

  lemma {:induction false} EmittedLinesCons(body: seq<Line>)
    requires body != []
    ensures EmittedLines(body) == EmittedLines(body[1..]) + if body[0].key.Emitted? then 1 else 0
  {
    var front := body[..|body| - 1];
    if front == [] {
      assert body[1..] == [];
    } else {
      EmittedLinesCons(front);
      assert front[1..] == body[1..][..|body| - 2];
      assert body[1..][|body| - 2] == body[|body| - 1];
    }
  }

  // Taking the lines of a body one by one collects its counters.
  lemma {:induction false} TakeAllCollects(body: seq<Line>, before: Info)
    ensures TakeAll(body, before) == Counters(body, before)
  {
    if body != [] {
      var front, last := body[..|body| - 1], body[|body| - 1];
      TakeAllCollects(front, before);
      assert body == front + [last];
      NthEmittedSnoc(front, last, 0, before.emitted);
      NthEmittedSnoc(front, last, 1, before.emittedTrial);
    }
  }

  // ---------- the loops on the whole file ----------

  lemma {:induction false} OuterSkipsBody(body: seq<Line>, rest: seq<Line>, newline: bool, shortname: string,
                                          info: Info)
    requires forall i :: 0 <= i < |body| ==> body[i].header.None?
    ensures Outer(body + rest, newline, shortname, info) == Outer(rest, newline, shortname, info)
  {
    if body == [] {
      assert body + rest == rest;
    } else {
      assert (body + rest)[1..] == body[1..] + rest;
      OuterSkipsBody(body[1..], rest, newline, shortname, info);
    }
  }

  // The line the inner loop has in its buffer after done, when it started on the header.
  ghost function Buffered(header: Line, done: seq<Line>): Line {
    if done == [] then header else done[|done| - 1]
  }

  // The inner loop, with the lines done behind it and body in front, up to the line that stops it.
  lemma {:induction false} InnerTakesBody(header: Line, done: seq<Line>, body: seq<Line>, rest: seq<Line>,
                                          newline: bool, shortname: string, info: Info)
    requires forall i :: 0 <= i < |body| ==> !body[i].dashes
    requires rest != [] || newline
    ensures var all := done + body;
            Inner(body + rest, newline, shortname, Buffered(header, done), EmittedLines(done), TakeAll(done, info)) ==
            Inner(rest, newline, shortname, Buffered(header, all), EmittedLines(all), TakeAll(all, info))
    decreases |body|
  {
    if body == [] {
      assert body + rest == rest && done + body == done;
    } else {
      var done' := done + [body[0]];
      assert done'[..|done|] == done;
      assert (body + rest)[1..] == body[1..] + rest;
      assert done' + body[1..] == done + body;
      InnerTakesBody(header, done', body[1..], rest, newline, shortname, info);
    }
  }

  // A section whose ring matches, with another one behind it: its lines are taken, the next
  // header is swallowed, and the outer loop goes on inside the next section.
  lemma MatchingSection(s: Section, next: Section, more: seq<Section>, newline: bool, shortname: string, info: Info)
    requires WellFormed(s) && WellFormed(next) && Matches(HeaderLine(s), shortname)
    ensures Outer(Lines([s, next] + more), newline, shortname, info) ==
            Outer(Lines(more), newline, shortname, TakeAll(s.body, info.(ringid := s.id)))
  {
    var info' := info.(ringid := s.id);
    var header := HeaderLine(next);
    var tail := [header] + (next.body + Lines(more));
    var sections := [s, next] + more;
    assert sections[1..][1..] == more && sections[1..] == [next] + more;
    assert Lines(sections) == [HeaderLine(s)] + (s.body + tail);
    assert (s.body + tail) == Lines(sections)[1..];
    InnerTakesBody(HeaderLine(s), [], s.body, tail, newline, shortname, info');
    assert [] + s.body == s.body;
    assert tail[1..] == next.body + Lines(more);
    OuterSkipsBody(next.body, Lines(more), newline, shortname, TakeAll(s.body, info'));
  }

  // The last section: when the file ends with a newline its last line is taken twice.
  lemma LastSection(s: Section, newline: bool, shortname: string, info: Info)
    requires WellFormed(s) && Matches(HeaderLine(s), shortname)
    ensures var taken := TakeAll(s.body, info.(ringid := s.id));
            Outer(Lines([s]), newline, shortname, info) ==
            if newline && s.body != [] then Take(s.body[|s.body| - 1], EmittedLines(s.body), taken) else taken
  {
    var header, body, info' := HeaderLine(s), s.body, info.(ringid := s.id);
    assert [s][1..] == [] && Lines([s])[1..] == body;
    if newline {
      InnerTakesBody(header, [], body, [], newline, shortname, info');
      assert body + [] == body && [] + body == body;
    } else if body != [] {
      var front, last := body[..|body| - 1], body[|body| - 1];
      InnerTakesBody(header, [], front, [last], newline, shortname, info');
      assert front + [last] == body && [] + front == front;
    }
  }

  lemma OtherSection(s: Section, more: seq<Section>, newline: bool, shortname: string, info: Info)
    requires WellFormed(s) && !Matches(HeaderLine(s), shortname)
    ensures Outer(Lines([s] + more), newline, shortname, info) ==
            Outer(Lines(more), newline, shortname, info.(ringid := s.id))
  {
    assert ([s] + more)[1..] == more;
    assert Lines([s] + more)[1..] == s.body + Lines(more);
    OuterSkipsBody(s.body, Lines(more), newline, shortname, info.(ringid := s.id));
  }

  lemma NamePrefix(shortname: string, name: string)
    requires ')' !in shortname
    ensures shortname <= name + ")" <==> shortname <= name
  {
    var token := name + ")";
    assert token[|name|] == ')' && token[..|name|] == name;
    if |shortname| <= |name| {
      assert token[..|shortname|] == name[..|shortname|];
    }
  }

  ghost predicate OnlyRing(sections: seq<Section>, i: nat, shortname: string) {
    && ')' !in shortname
    && (forall j :: 0 <= j < |sections| ==> WellFormed(sections[j]))
    && (forall j :: 0 <= j < |sections| ==> (shortname <= sections[j].name <==> j == i))
  }

  ghost function Query(sections: seq<Section>, newline: bool, shortname: string, info: Info): Info {
    Outer(Lines(sections), newline, shortname, info)
  }

  // The family of files on which the query goes wrong: the section is last, and it ends in
  // its first "emitted" line, which the reader takes for the second one too.
  ghost predicate ReadTwice(sections: seq<Section>, i: nat, newline: bool)
    requires i < |sections|
  {
    var body := sections[i].body;
    && newline && i == |sections| - 1 && body != []
    && EmittedLines(body) == 1
    && var last := body[|body| - 1]; last.key.Emitted? && last.number.Some? && last.number.value != 0
  }

  ghost predicate SameCounters(a: Info, b: Info) {
    a.(ringid := 0) == b.(ringid := 0)
  }

  // The sections that the reader takes: those that match, except for one directly behind a
  // section that it has taken, because it has swallowed that one's header.
  ghost function Taken(sections: seq<Section>, shortname: string): seq<Section> {
    if sections == [] then []
    else
      var s, more := sections[0], sections[1..];
      if !Matches(HeaderLine(s), shortname) then Taken(more, shortname)
      else [s] + if more == [] then [] else Taken(more[1..], shortname)
  }

  // Whether the reader is in a section that it takes when the file ends.
  ghost predicate LastIsTaken(sections: seq<Section>, shortname: string) {
    sections != [] &&
    var s, more := sections[0], sections[1..];
    if !Matches(HeaderLine(s), shortname) then LastIsTaken(more, shortname)
    else more == [] || LastIsTaken(more[1..], shortname)
  }

  // The counters of several sections, one after the other.
  ghost function Gathered(taken: seq<Section>, before: Info): Info {
    if taken == [] then before else Gathered(taken[1..], Counters(taken[0].body, before))
  }

  // The body ends in its first "emitted" line, and that has a number.
  ghost predicate EndsInFirstEmitted(body: seq<Line>) {
    body != [] && EmittedLines(body) == 1 && var last := body[|body| - 1]; last.key.Emitted? && last.number.Some?
  }

  // The last line, taken again, is taken for the second "emitted" one if it is the first, and
  // changes nothing otherwise.
  ghost function Again(body: seq<Line>, info: Info): Info {
    if EndsInFirstEmitted(body) then info.(emittedTrial := body[|body| - 1].number.value) else info
  }

  ghost function Found(sections: seq<Section>, newline: bool, shortname: string, before: Info): Info {
    var gathered := Gathered(Taken(sections, shortname), before);
    if newline && LastIsTaken(sections, shortname) then Again(sections[|sections| - 1].body, gathered) else gathered
  }

  lemma TakenAgain(body: seq<Line>, before: Info)
    requires body != []
    ensures Take(body[|body| - 1], EmittedLines(body), Counters(body, before)) == Again(body, Counters(body, before))
  {
  }

  // The ring number has no influence on the counters.
  lemma {:induction false} FoundIgnoresRing(sections: seq<Section>, newline: bool, shortname: string, a: Info, b: Info)
    requires SameCounters(a, b)
    ensures SameCounters(Found(sections, newline, shortname, a), Found(sections, newline, shortname, b))
  {
    GatheredIgnoresRing(Taken(sections, shortname), a, b);
  }

  lemma {:induction false} GatheredIgnoresRing(taken: seq<Section>, a: Info, b: Info)
    requires SameCounters(a, b)
    ensures SameCounters(Gathered(taken, a), Gathered(taken, b))
  {
    if taken != [] {
      GatheredIgnoresRing(taken[1..], Counters(taken[0].body, a), Counters(taken[0].body, b));
    }
  }

  lemma LastStream(s: Section, newline: bool, shortname: string, before: Info)
    requires WellFormed(s) && Matches(HeaderLine(s), shortname)
    ensures SameCounters(Query([s], newline, shortname, before), Found([s], newline, shortname, before))
  {
    var info := before.(ringid := s.id);
    TakeAllCollects(s.body, info);
    assert Taken([s], shortname) == [s] && [s][1..] == [];
    assert Gathered([s], info) == Counters(s.body, info);
    LastSection(s, newline, shortname, before);
    if s.body != [] { TakenAgain(s.body, info); }
    FoundIgnoresRing([s], newline, shortname, info, before);
  }

  // What the query makes of any stream of sections whatsoever.
  lemma {:induction false} FenceStream(sections: seq<Section>, newline: bool, shortname: string, before: Info)
    requires forall j :: 0 <= j < |sections| ==> WellFormed(sections[j])
    ensures SameCounters(Query(sections, newline, shortname, before), Found(sections, newline, shortname, before))
    decreases |sections|
  {
    if sections != [] {
      var s, more := sections[0], sections[1..];
      var info := before.(ringid := s.id);
      assert sections == [s] + more;
      if !Matches(HeaderLine(s), shortname) {
        OtherSection(s, more, newline, shortname, before);
        FenceStream(more, newline, shortname, info);
        FoundIgnoresRing(more, newline, shortname, info, before);
      } else {
        if more == [] {
          LastStream(s, newline, shortname, before);
        } else {
          var rest := more[1..];
          assert sections == [s, more[0]] + rest;
          MatchingSection(s, more[0], rest, newline, shortname, before);
          TakeAllCollects(s.body, info);
          FenceStream(rest, newline, shortname, Counters(s.body, info));
          assert Taken(sections, shortname)[1..] == Taken(rest, shortname);
          FoundIgnoresRing(sections, newline, shortname, info, before);
        }
      }
    }
  }

  // With no matching section nothing is taken, ...
  lemma {:induction false} NoMatch(sections: seq<Section>, shortname: string)
    requires OnlyRing(sections, |sections|, shortname)
    ensures Taken(sections, shortname) == [] && !LastIsTaken(sections, shortname)
  {
    if sections != [] {
      NamePrefix(shortname, sections[0].name);
      assert forall j :: 0 <= j < |sections| - 1 ==> sections[1..][j] == sections[j + 1];
      NoMatch(sections[1..], shortname);
    }
  }

  // ... and with one that one.
  lemma {:induction false} OneMatch(sections: seq<Section>, i: nat, shortname: string)
    requires i < |sections| && OnlyRing(sections, i, shortname)
    ensures Taken(sections, shortname) == [sections[i]]
    ensures LastIsTaken(sections, shortname) <==> i == |sections| - 1
  {
    var more := sections[1..];
    NamePrefix(shortname, sections[0].name);
    assert forall j :: 0 <= j < |more| ==> more[j] == sections[j + 1];
    if i > 0 {
      assert !(shortname <= sections[0].name);
      OneMatch(more, i - 1, shortname);
    } else if more != [] {
      assert forall j :: 0 <= j < |more| - 1 ==> more[1..][j] == sections[j + 2];
      NoMatch(more[1..], shortname);
    }
  }

  // A body with one "emitted" line has no second one.
  lemma NoSecondEmitted(body: seq<Line>)
    requires EmittedLines(body) <= 1
    ensures NthEmitted(body, 1, 0) == 0
  {
    NthEmittedSnoc(body, Line(None, false, Other, None), 1, 0);
  }

  // The query finds the counters of the ring that was asked for, and no others, exactly when
  // the file is not of the family above; on that family it is wrong in one counter.
  lemma FenceLookup(sections: seq<Section>, i: nat, newline: bool, shortname: string, ringid: int)
    requires i < |sections| && OnlyRing(sections, i, shortname)
    ensures var found := Query(sections, newline, shortname, CLEARED.(ringid := ringid));
            var meant := Counters(sections[i].body, CLEARED);
            && (SameCounters(found, meant) <==> !ReadTwice(sections, i, newline))
            && (ReadTwice(sections, i, newline) ==> SameCounters(found, meant.(emittedTrial := meant.emitted)))
  {
    var body := sections[i].body;
    FenceStream(sections, newline, shortname, CLEARED.(ringid := ringid));
    FoundIgnoresRing(sections, newline, shortname, CLEARED.(ringid := ringid), CLEARED);
    OneMatch(sections, i, shortname);
    assert [sections[i]][1..] == [];
    assert Gathered([sections[i]], CLEARED) == Counters(body, CLEARED);
    if EndsInFirstEmitted(body) {
      var front, last := body[..|body| - 1], body[|body| - 1];
      assert body == front + [last];
      NthEmittedSnoc(front, last, 0, 0);
      NoSecondEmitted(body);
    }
  }

  // ---------- the same line by line ----------

  ghost predicate HasNumber(line: Line, key: Key) {
    line.key == key && line.number.Some?
  }

  ghost predicate IsLastAt(body: seq<Line>, key: Key, i: nat)
    requires i < |body|
  {
    HasNumber(body[i], key) && forall j :: i < j < |body| ==> !HasNumber(body[j], key)
  }

  // value is the number on the last line of that kind that has one, and 0 without such a line.
  ghost predicate IsLast(body: seq<Line>, key: Key, value: nat) {
    && ((forall i :: 0 <= i < |body| ==> !HasNumber(body[i], key)) ==> value == 0)
    && (forall i :: 0 <= i < |body| && IsLastAt(body, key, i) ==> value == body[i].number.value)
  }

  ghost predicate IsNumberOf(line: Line, value: nat) {
    value == if line.number.Some? then line.number.value else 0
  }

  ghost predicate IsFirstAt(body: seq<Line>, i: nat)
    requires i < |body|
  {
    body[i].key == Emitted && forall j :: 0 <= j < i ==> body[j].key != Emitted
  }

  // value is the number on the first "emitted" line, and 0 without one.
  ghost predicate IsFirstEmitted(body: seq<Line>, value: nat) {
    && ((forall i :: 0 <= i < |body| ==> body[i].key != Emitted) ==> value == 0)
    && (forall i :: 0 <= i < |body| && IsFirstAt(body, i) ==> IsNumberOf(body[i], value))
  }

  // value is the number on the first "emitted" line behind the first, and 0 without one.
  ghost predicate IsSecondEmitted(body: seq<Line>, value: nat) {
    && ((forall i :: 0 <= i < |body| ==> body[i].key != Emitted) ==> value == 0)
    && (forall i :: 0 <= i < |body| && IsFirstAt(body, i) ==> IsFirstEmitted(body[i + 1..], value))
  }

  lemma LastIsInFront(front: seq<Line>, last: Line, key: Key, i: nat)
    requires i < |front| && IsLastAt(front + [last], key, i)
    ensures IsLastAt(front, key, i) && (front + [last])[i] == front[i] && !HasNumber(last, key)
  {
    var body := front + [last];
    assert body[|front|] == last;
    forall j | i < j < |front|
      ensures !HasNumber(front[j], key)
    {
      assert body[j] == front[j];
    }
  }

  lemma OneMoreLine(front: seq<Line>, last: Line, key: Key, value: nat)
    requires IsLast(front, key, value)
    ensures IsLast(front + [last], key, if HasNumber(last, key) then last.number.value else value)
  {
    var body := front + [last];
    assert body[|front|] == last && forall i :: 0 <= i < |front| ==> body[i] == front[i];
    forall i | 0 <= i < |body| && IsLastAt(body, key, i)
      ensures body[i].number.value == if HasNumber(last, key) then last.number.value else value
    {
      if i < |front| { LastIsInFront(front, last, key, i); }
    }
  }

  lemma {:induction false} LatestIs(body: seq<Line>, key: Key)
    ensures IsLast(body, key, Latest(body, key, 0))
  {
    if body != [] {
      var front, last := body[..|body| - 1], body[|body| - 1];
      LatestIs(front, key);
      OneMoreLine(front, last, key, Latest(front, key, 0));
      assert front + [last] == body;
    }
  }

  lemma FirstIsBehind(body: seq<Line>, i: nat)
    requires i < |body| && IsFirstAt(body, i) && body[0].key != Emitted
    ensures i > 0 && IsFirstAt(body[1..], i - 1) && body[1..][i - 1] == body[i] && body[1..][i..] == body[i + 1..]
  {
    forall j | 0 <= j < i - 1
      ensures body[1..][j].key != Emitted
    {
      assert body[1..][j] == body[j + 1];
    }
  }

  lemma NoneBehind(body: seq<Line>)
    requires body != [] && forall i :: 0 <= i < |body| ==> body[i].key != Emitted
    ensures forall i :: 0 <= i < |body| - 1 ==> body[1..][i].key != Emitted
  {
  }

  lemma {:induction false} FirstEmittedIs(body: seq<Line>)
    ensures IsFirstEmitted(body, NthEmitted(body, 0, 0))
  {
    if body != [] && body[0].key != Emitted {
      FirstEmittedIs(body[1..]);
      if forall i :: 0 <= i < |body| ==> body[i].key != Emitted { NoneBehind(body); }
      forall i | 0 <= i < |body| && IsFirstAt(body, i)
        ensures IsNumberOf(body[i], NthEmitted(body, 0, 0))
      {
        FirstIsBehind(body, i);
      }
    }
  }

  lemma {:induction false} SecondEmittedIs(body: seq<Line>)
    ensures IsSecondEmitted(body, NthEmitted(body, 1, 0))
  {
    if body != [] {
      if body[0].key == Emitted {
        FirstEmittedIs(body[1..]);
      } else {
        SecondEmittedIs(body[1..]);
        if forall i :: 0 <= i < |body| ==> body[i].key != Emitted { NoneBehind(body); }
        forall i | 0 <= i < |body| && IsFirstAt(body, i)
          ensures IsFirstEmitted(body[i + 1..], NthEmitted(body, 1, 0))
        {
          FirstIsBehind(body, i);
        }
      }
    }
  }

  // What a section says, the second "emitted" number aside.
  ghost predicate SaysAllBut(body: seq<Line>, info: Info) {
    && IsFirstEmitted(body, info.emitted) && IsLast(body, Trailing, info.trailing)
    && IsLast(body, Signaled, info.signaled) && IsLast(body, Preempted, info.preempted)
    && IsLast(body, Reset, info.reset) && IsLast(body, Both, info.both)
  }

  lemma CountersSay(body: seq<Line>)
    ensures var info := Counters(body, CLEARED);
            SaysAllBut(body, info) && IsSecondEmitted(body, info.emittedTrial)
  {
    FirstEmittedIs(body);
    SecondEmittedIs(body);
    LatestIs(body, Trailing);
    LatestIs(body, Signaled);
    LatestIs(body, Preempted);
    LatestIs(body, Reset);
    LatestIs(body, Both);
  }

  // The reader itself, on any stream of sections, ...
  method QuerySections(sections: seq<Section>, newline: bool, shortname: string) returns (info: Info)
    requires forall j :: 0 <= j < |sections| ==> WellFormed(sections[j])
    ensures SameCounters(info, Found(sections, newline, shortname, CLEARED))
    ensures ')' !in shortname && (forall j :: 0 <= j < |sections| ==> !(shortname <= sections[j].name)) ==>
              && info.emitted == info.emittedTrial == info.trailing == info.signaled == 0
              && info.preempted == info.reset == info.both == 0
  {
    var file := new File(Lines(sections), newline);
    info := QueryFenceInfo(file, shortname);
    FenceStream(sections, newline, shortname, CLEARED);
    if ')' !in shortname && forall j :: 0 <= j < |sections| ==> !(shortname <= sections[j].name) {
      NoMatch(sections, shortname);
    }
  }

  // ... and on one in which a single ring is meant.
  method QueryRing(sections: seq<Section>, newline: bool, shortname: string, ghost i: nat) returns (info: Info)
    requires i < |sections| && OnlyRing(sections, i, shortname)
    ensures var meant := Counters(sections[i].body, CLEARED);
            && (SameCounters(info, meant) <==> !ReadTwice(sections, i, newline))
            && (ReadTwice(sections, i, newline) ==> SameCounters(info, meant.(emittedTrial := meant.emitted)))
    ensures SaysAllBut(sections[i].body, info)
    ensures if ReadTwice(sections, i, newline) then info.emittedTrial == info.emitted
            else IsSecondEmitted(sections[i].body, info.emittedTrial)
  {
    var file := new File(Lines(sections), newline);
    info := QueryFenceInfo(file, shortname);
    FenceLookup(sections, i, newline, shortname, 0);
    CountersSay(sections[i].body);
  }
}
