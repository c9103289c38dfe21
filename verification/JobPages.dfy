/** A whole job, laid out: file after file, with virtual pages left empty between them where files are to begin a new
    rank of pages. What each file looks like depends on that file alone. */
module JobPages {
  import opened Layout
  import opened PageLines
  import opened PostScript

  datatype Align = Virtual | Rank(byRows: bool)

  function RankSize(a: Align, o: Options): nat {
    if a.Rank? then if a.byRows then o.columns else o.rows else 1
  }

  /** How many virtual pages are missing in the rank. */
  function ToNextRank(pages: nat, alignment: nat): nat {
    if alignment == 0 || pages % alignment == 0 then 0 else alignment - pages % alignment
  }

  function SkipVirtuals(o: Options, s: State, force: bool, n: nat): State
    decreases n
  {
    if n == 0 then s else SkipVirtuals(o, SkipVirtual(o, s, force), force, n - 1)
  }

  /** A file more, from the first page it may begin on. */
  function FileStart(o: Options, s: State, first: bool, align: Align, force: bool): State {
    if first || align.Virtual? then BeginFile(s)
    else BeginFile(SkipVirtuals(o, BeginFile(s), force, ToNextRank(s.pages, RankSize(align, o))))
  }

  function JobState(o: Options, files: seq<seq<Char>>, align: Align, force: bool): State
    requires o.tabsize > 0
  {
    if files == [] then FIRST
    else
      var n := |files| - 1;
      EndFile(o, PutAll(o, FileStart(o, JobState(o, files[..n], align, force), n == 0, align, force), files[n]))
  }

  // ----- what a job is made of -----

  /** What a file adds: the pages left empty before it, its text, and the end of its last page. */
  datatype Part = Part(skipped: seq<Event>, body: seq<Event>, tail: seq<Event>)

  predicate OnlyPages(events: seq<Event>) {
    forall k :: 0 <= k < |events| ==>
      events[k].PageBegin? || events[k].PageEnd? || events[k].SheetBegin? || events[k].SheetEnd?
  }

  ghost predicate PartOf(o: Options, part: Part, text: seq<Char>)
    requires o.tabsize > 0
  {
    && OnlyPages(part.skipped) && SetAs(o, part.body, text)
    && (if NoPage(part.body) then part.tail == [] else part.tail == [PageEnd] || part.tail == [PageEnd, SheetEnd])
  }

  function Joined(parts: seq<Part>): seq<Event> {
    if parts == [] then []
    else
      var part := parts[|parts| - 1];
      Joined(parts[..|parts| - 1]) + (part.skipped + part.body + part.tail)
  }

  ghost predicate PartsOf(o: Options, parts: seq<Part>, files: seq<seq<Char>>)
    requires o.tabsize > 0
  {
    |parts| == |files| && forall k :: 0 <= k < |files| ==> PartOf(o, parts[k], files[k])
  }

  /** Nothing is shown but the files, one after the other; the last sheet is ended. */
  ghost predicate JobSet(o: Options, files: seq<seq<Char>>, parts: seq<Part>, events: seq<Event>)
    requires o.tabsize > 0
  {
    PartsOf(o, parts, files) && (events == Joined(parts) || events == Joined(parts) + [SheetEnd])
  }

  lemma SkipAdds(o: Options, s: State, force: bool) returns (more: seq<Event>)
    ensures SkipVirtual(o, s, force).events == s.events + more && OnlyPages(more)
  {
    more := SkipVirtual(o, s, force).events[|s.events|..];
  }

  lemma {:induction false} SkipsAdd(o: Options, s: State, force: bool, n: nat) returns (more: seq<Event>)
    ensures SkipVirtuals(o, s, force, n).events == s.events + more && OnlyPages(more)
    decreases n
  {
    more := [];
    if n > 0 {
      var one := SkipAdds(o, s, force);
      hide SkipVirtual;
      more := SkipsAdd(o, SkipVirtual(o, s, force), force, n - 1);
      assert s.events + one + more == s.events + (one + more);
      more := one + more;
    }
  }

  lemma StartAdds(o: Options, s: State, first: bool, align: Align, force: bool) returns (more: seq<Event>)
    ensures FileStart(o, s, first, align, force).events == s.events + more && OnlyPages(more)
    ensures AtTop(FileStart(o, s, first, align, force))
  {
    hide SkipVirtuals;
    more := [];
    if !first && align.Rank? {
      more := SkipsAdd(o, BeginFile(s), force, ToNextRank(s.pages, RankSize(align, o)));
    }
  }

  lemma EndAdds(o: Options, s: State) returns (more: seq<Event>)
    ensures EndFile(o, s).events == s.events + more
    ensures if s.startPage then more == [] else more == [PageEnd] || more == [PageEnd, SheetEnd]
  {
    more := EndFile(o, s).events[|s.events|..];
  }

  /** What one file adds to a job. */
  lemma FileAdds(o: Options, s: State, first: bool, align: Align, force: bool, text: seq<Char>) returns (part: Part)
    requires o.tabsize > 0 && o.linesperpage > 0
    ensures EndFile(o, PutAll(o, FileStart(o, s, first, align, force), text)).events ==
      s.events + (part.skipped + part.body + part.tail)
    ensures PartOf(o, part, text)
  {
    hide FileStart, EndFile, PutAll, SetAs, NoPage, OnlyPages, AtTop;
    var skipped := StartAdds(o, s, first, align, force);
    var body := TextSet(o, FileStart(o, s, first, align, force), text);
    var tail := EndAdds(o, PutAll(o, FileStart(o, s, first, align, force), text));
    part := Part(skipped, body, tail);
    assert s.events + skipped + body + tail == s.events + (skipped + body + tail);
  }

  lemma JoinedMore(parts: seq<Part>, part: Part)
    ensures Joined(parts + [part]) == Joined(parts) + (part.skipped + part.body + part.tail)
  {
    assert (parts + [part])[..|parts|] == parts;
  }

  lemma {:induction false} FilesAdd(o: Options, files: seq<seq<Char>>, align: Align, force: bool)
    returns (parts: seq<Part>)
    requires o.tabsize > 0 && o.linesperpage > 0
    ensures PartsOf(o, parts, files) && JobState(o, files, align, force).events == Joined(parts)
    decreases |files|
  {
    hide FileStart, EndFile, PutAll, PartOf, Joined;
    if files == [] {
      parts := [];
      NothingJoined();
    } else {
      var n := |files| - 1;
      parts := FilesAdd(o, files[..n], align, force);
      var part := FileAdds(o, JobState(o, files[..n], align, force), n == 0, align, force, files[n]);
      JoinedMore(parts, part);
      parts := parts + [part];
    }
  }

  lemma NothingJoined()
    ensures Joined([]) == []
  {
  }

  /** The events of a job are those of its files. */
  lemma JobInParts(o: Options, files: seq<seq<Char>>, align: Align, force: bool)
    requires o.tabsize > 0 && o.linesperpage > 0
    ensures exists parts :: JobSet(o, files, parts, Flush(JobState(o, files, align, force)).events)
  {
    var parts := FilesAdd(o, files, align, force);
    hide JobState, PartsOf, Joined;
    assert JobSet(o, files, parts, Flush(JobState(o, files, align, force)).events);
  }
}
