/**
 * What the consumer sees of the Kafka client (confluent-kafka-go): messages, the
 * events `Poll` returns, and the client calls the consumer makes, which the model
 * records in a log instead of performing.
 */
module Kafka {
  import opened Numeric

  datatype Header = Header(key: string, value: seq<byte>)

  /** A message envelope: its partition, key, value and headers. */
  datatype Message = Message(partition: int32, key: seq<byte>, value: seq<byte>, headers: seq<Header>)

  datatype ErrorCode = AllBrokersDown | OtherError(code: int)

  /** What one `Poll(100)` yields. Assignment changes reach the rebalance callback. */
  datatype Event =
    | NoEvent                                   // the poll timed out: nil
    | MessageEvent(msg: Message)
    | AssignedPartitions(partitions: seq<int32>)
    | RevokedPartitions(partitions: seq<int32>)
    | PartitionEOF(partition: int32)
    | ErrorEvent(code: ErrorCode)
    | OtherEvent                                // any other event type: logged and ignored

  /** Client calls, and the worker lifecycle steps the consumer takes, in the order they happen. */
  datatype Action =
    | ClientSubscribe(topic: string)
    | ClientAssign(partitions: seq<int32>)
    | ClientUnassign
    | ClientCommit(msg: Message)
    | ClientClose
    | WorkerStarted(partition: int32)
    | WorkerStopped(partition: int32)
    | WorkerDone(partition: int32)

  /** What `HandleMessage` returns; an error only gets logged. */
  datatype Outcome = Handled | Failed(reason: string)
}
