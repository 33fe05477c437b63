/** The read handle: lock-free views of the shared log. */
module Reader {
  import opened Bytes
  import opened Types
  import opened Index
  import opened Appending
  import S = Store

  class ReadIndex {
    const log: S.EventLog

    constructor (log: S.EventLog)
      ensures this.log == log
    {
      this.log := log;
    }

    /** The version of a stream is one less than the number of its events; a stream without events has none. */
    method StreamVersion(stream: Uuid) returns (version: Option<nat>)
      requires Consistent(log.View())
      ensures var count := |Project(log.events, stream)|;
              version == if count == 0 then None else Some(count - 1)
    {
      hide WellPositioned;
      IndexIsProjection(log.events, stream);
      if stream !in log.streams {
        return None;
      }
      return Some(|log.streams[stream]| - 1);
    }

    /** Reading a stream through its position list gives the window of the filtered log. */
    method ReadStream(stream: Uuid, from: u64, max: u64) returns (r: Result<seq<RecordedEvent>>)
      requires Consistent(log.View())
      ensures var projection := Project(log.events, stream);
              r == if projection == [] then Err(StreamNotFound(stream)) else Ok(Window(projection, from, max))
    {
      hide WellPositioned, IndexOf, Project;
      ReadStreamIsWindow(log.View(), stream, from, max);
      if stream !in log.streams {
        return Err(StreamNotFound(stream));
      }
      var positions := log.streams[stream];
      var len := |positions|;
      var start, end := Min(from, len), Min(SaturatingAdd(from, max), len);
      var events := [];
      for i := start to end
        invariant events == At(log.events, positions[start..i])
      {
        events := events + [log.events[positions[i]]];
        assert positions[start..i + 1] == positions[start..i] + [positions[i]];
      }
      return Ok(events);
    }

    method ReadAll(from: u64, max: u64) returns (r: seq<RecordedEvent>)
      requires Consistent(log.View())
      ensures r == Window(log.events, from, max)
    {
      hide WellPositioned, IndexOf;
      var len := |log.events|;
      r := log.events[Min(from, len)..Min(SaturatingAdd(from, max), len)];
    }
  }
}
