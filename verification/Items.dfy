/** What flows through the pipeline: files to archive, and files read. */
module Items {
  import opened Bytes

  datatype WorkItem = WorkItem(path: seq<Byte>, name: seq<Byte>, size: nat, date: U16, time: U16)

  /** A work item with its position in the walk. */
  datatype Job = Job(index: nat, item: WorkItem)

  datatype RawItem = RawItem(index: nat, item: WorkItem, bytes: seq<Byte>)

  /** The sending end of a channel whose receivers take `room` items and then go away;
      sending fails from then on. Channels that stay open have a large enough `room`. */
  class Sender<T> {
    var sent: seq<T>
    const room: nat

    constructor (room: nat)
      ensures sent == [] && this.room == room
    {
      sent, this.room := [], room;
    }

    method Send(x: T) returns (ok: bool)
      modifies this
      ensures ok == (|old(sent)| < room)
      ensures sent == if ok then old(sent) + [x] else old(sent)
    {
      ok := |sent| < room;
      if ok {
        sent := sent + [x];
      }
    }
  }
}
