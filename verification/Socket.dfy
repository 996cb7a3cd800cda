/**
 Bytes, and a socket read into a caller's buffer.
 */
module Socket {

  type Byte = b: int | 0 <= b < 256

  /** What one read gives; `Data([])` is a read of zero bytes. */
  datatype ReadResult = Data(bytes: seq<Byte>) | WouldBlock | ReadError

  /** The bytes read go to the front of the buffer; the rest of it stays as it was. */
  method Fill(buffer: array<Byte>, bytes: seq<Byte>)
    requires |bytes| <= buffer.Length
    modifies buffer
    ensures buffer[..|bytes|] == bytes
    ensures forall k | |bytes| <= k < buffer.Length :: buffer[k] == old(buffer[k])
  {
    forall k | 0 <= k < |bytes| {
      buffer[k] := bytes[k];
    }
  }
}
