// The reassembly buffer as it is coded (common/stream_buffer.h,
// common/stream_buffer.cpp).
module StreamBuffers {
  import opened Wire
  import opened Framing

  class StreamBuffer {
    var data: Bytes

    constructor ()
      ensures data == []
    {
      data := [];
    }

    method Append(chunk: Bytes)
      modifies this
      ensures data == old(data) + chunk
    {
      data := data + chunk;
    }

    // The source hands out a pointer into the buffer; here msg is the bytes
    // that pointer and length delimit at the time of the call.
    method Next() returns (found: bool, msg: Bytes)
      ensures found <==> NextCut(data) != NeedMore
      ensures found ==> msg == Front(data)
    {
      if |data| < HEADER_SIZE {
        return false, [];
      }
      var length := LoadBe16(data[4..]);
      assert data[4..][..2] == data[4..6];
      LengthFieldIsBigEndian(data);
      if length < HEADER_SIZE || length > MAX_MESSAGE_LEN {
        return true, data;
      }
      if |data| < length {
        return false, [];
      }
      return true, data[..length];
    }

    method Consume(len: nat)
      modifies this
      ensures data == if len >= |old(data)| then [] else old(data)[len..]
    {
      if len >= |data| {
        data := [];
      } else {
        data := data[len..];
      }
    }

    method Reset()
      modifies this
      ensures data == []
    {
      data := [];
    }
  }
}
