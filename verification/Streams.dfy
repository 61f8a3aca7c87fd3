/**
 The cascade projection both stack walkers read: the `cascade_streams` rows of one
 SQLite snapshot, the latest commit of each stream, and each swarm's trunk setting.
 */
module Streams {
  import opened Wrappers

  /** One row of `cascade_streams`; `parent` holds the parent's runtime stream id. */
  datatype Stream = Stream(
    id: string,
    streamId: string,
    swarm: string,
    parent: Option<string>,
    name: string,
    publishBranch: Option<string>,
    baseCommit: Option<string>,
    status: string)

  /** `rows` lists the table in the order queries return it, `latest` maps a row id to
      its newest commit, `trunks` a swarm to its `metadata.trunk_branch` string. */
  datatype Projection = Projection(
    rows: seq<Stream>,
    latest: map<string, string>,
    trunks: map<string, string>)

  const SKIP_STATUSES: set<string> := {"merged", "abandoned", "paused"}

  predicate Skipped(s: Stream) {
    s.status in SKIP_STATUSES
  }

  predicate Live(s: Stream) {
    !Skipped(s)
  }

  /** The table's constraints: `id` is the primary key and `(source_swarm_id, stream_id)` is unique. */
  ghost predicate KeysUnique(rows: seq<Stream>) {
    && (forall i, j :: 0 <= i < j < |rows| ==> rows[i].id != rows[j].id)
    && (forall i, j :: 0 <= i < j < |rows| ==>
          rows[i].swarm != rows[j].swarm || rows[i].streamId != rows[j].streamId)
  }

  function Ids(rows: seq<Stream>): set<string> {
    set s | s in rows :: s.id
  }

  /** No two rows of a walk are the same row. */
  ghost predicate Distinct(p: seq<Stream>) {
    forall i, j :: 0 <= i < j < |p| ==> p[i].id != p[j].id
  }

  function FindByRowId(rows: seq<Stream>, id: string): (r: Option<Stream>)
    ensures r.Some? ==> r.value in rows && r.value.id == id
    ensures r.None? ==> id !in Ids(rows)
  {
    if rows == [] then None
    else if rows[0].id == id then Some(rows[0])
    else
      assert rows == [rows[0]] + rows[1..];
      FindByRowId(rows[1..], id)
  }

  function FindBySwarmAndId(rows: seq<Stream>, swarm: string, streamId: string): (r: Option<Stream>)
    ensures r.Some? ==> r.value in rows && r.value.swarm == swarm && r.value.streamId == streamId
    ensures r.None? ==> forall s :: s in rows ==> s.swarm != swarm || s.streamId != streamId
  {
    if rows == [] then None
    else if rows[0].swarm == swarm && rows[0].streamId == streamId then Some(rows[0])
    else
      assert rows == [rows[0]] + rows[1..];
      FindBySwarmAndId(rows[1..], swarm, streamId)
  }

  /** A key finds its own row. */
  lemma FindOwnRow(rows: seq<Stream>, s: Stream)
    requires KeysUnique(rows) && s in rows
    ensures FindByRowId(rows, s.id) == Some(s)
    ensures FindBySwarmAndId(rows, s.swarm, s.streamId) == Some(s)
  {
    assert s.id in Ids(rows);
    var i :| 0 <= i < |rows| && rows[i] == s;
    var a := FindByRowId(rows, s.id).value;
    var j :| 0 <= j < |rows| && rows[j] == a;
    var b := FindBySwarmAndId(rows, s.swarm, s.streamId).value;
    var k :| 0 <= k < |rows| && rows[k] == b;
  }

  /** The rows of one swarm whose `parent_stream_id` is `streamId`, in table order. */
  function ChildrenOf(rows: seq<Stream>, swarm: string, streamId: string): seq<Stream> {
    if rows == [] then []
    else
      var front, last := rows[..|rows| - 1], rows[|rows| - 1];
      ChildrenOf(front, swarm, streamId)
      + (if last.swarm == swarm && last.parent == Some(streamId) then [last] else [])
  }

  lemma {:induction false} ChildrenMember(rows: seq<Stream>, swarm: string, streamId: string, c: Stream)
    ensures c in ChildrenOf(rows, swarm, streamId)
       <==> c in rows && c.swarm == swarm && c.parent == Some(streamId)
  {
    if rows != [] {
      var front, last := rows[..|rows| - 1], rows[|rows| - 1];
      assert c in rows <==> c in front || c == last by { assert rows == front + [last]; }
      ChildrenMember(front, swarm, streamId, c);
    }
  }

  lemma {:induction false} ChildrenDistinct(rows: seq<Stream>, swarm: string, streamId: string)
    requires Distinct(rows)
    ensures Distinct(ChildrenOf(rows, swarm, streamId))
  {
    if rows != [] {
      var front, last := rows[..|rows| - 1], rows[|rows| - 1];
      ChildrenDistinct(front, swarm, streamId);
      forall c | c in ChildrenOf(front, swarm, streamId) ensures c.id != last.id {
        ChildrenMember(front, swarm, streamId, c);
        var i :| 0 <= i < |front| && front[i] == c;
      }
    }
  }

  /** The live rows of a list, in order. */
  function LiveOf(cs: seq<Stream>): seq<Stream> {
    if cs == [] then []
    else
      var last := cs[|cs| - 1];
      LiveOf(cs[..|cs| - 1]) + (if Live(last) then [last] else [])
  }

  lemma {:induction false} LiveOfMember(cs: seq<Stream>, c: Stream)
    ensures c in LiveOf(cs) <==> c in cs && Live(c)
  {
    if cs != [] {
      var front, last := cs[..|cs| - 1], cs[|cs| - 1];
      assert c in cs <==> c in front || c == last by { assert cs == front + [last]; }
      LiveOfMember(front, c);
    }
  }
}
