/** The capped write queue of a session, as a value. */
module Outbox {
  import opened Wire

  const MAX_WRITE_QUEUE_BYTES: nat := 4 * 1024 * 1024

  datatype WriteQueue = WriteQueue(queue: seq<byte>, bytes: nat)

  datatype Enqueued = Enqueued(box: WriteQueue, accepted: bool)

  /** `Session::sendBytes`: all of the data or nothing of it. */
  function Enqueue(box: WriteQueue, data: seq<byte>): Enqueued {
    if data == [] then Enqueued(box, true)
    else if box.bytes + |data| > MAX_WRITE_QUEUE_BYTES then Enqueued(box, false)
    else Enqueued(WriteQueue(box.queue + data, box.bytes + |data|), true)
  }
}
