/** StreamExtension: copying a stream into a byte array and wrapping a byte
    array in a stream, over an in-memory stream of (bytes, position). */
module StreamExtension {
  import opened Common

  /** A MemoryStream: its bytes and a read position. As in .NET the position
      may lie past the end, where reading yields nothing. */
  class MemoryStream {
    var data: Bytes
    var position: nat

    constructor (bytes: Bytes)
      ensures data == bytes && position == 0
    {
      data := bytes;
      position := 0;
    }

    /** Stream.Length. */
    function Length(): nat
      reads this
    {
      |data|
    }

    /** The bytes a read from the current position returns. */
    function Rest(): (r: Bytes)
      reads this
      ensures |r| <= |data|
    {
      if position >= |data| then [] else data[position..]
    }

    /** Stream.CopyTo into a fresh buffer: returns the remaining bytes and
        leaves the position at the end. */
    method ReadToEnd() returns (bytes: Bytes)
      modifies this
      ensures bytes == old(Rest())
      ensures data == old(data)
      ensures position == if old(position) < |data| then |data| else old(position)
      ensures Rest() == []
    {
      bytes := Rest();
      if position < |data| {
        position := |data|;
      }
    }
  }

  const NullOrEmptyStream: string := "stream can not be null or empty"
  const NullOrEmptyArray: string := "Array of bytes can not be null or empty"

  /** StreamToArrayAsync: refuses a null stream and a stream of length 0
      (whatever its position); otherwise returns the bytes from the current
      position on, so a stream already at its end yields an empty array. */
  method StreamToArray(stream: MemoryStream?) returns (r: Result<Bytes>)
    modifies stream
    ensures stream == null || old(stream.Length()) == 0 <==> r.Err?
    ensures r.Err? ==> r.error == General(NullOrEmptyStream)
    ensures stream != null && old(stream.Length()) > 0 ==> r == Ok(old(stream.Rest()))
    ensures stream != null ==> stream.data == old(stream.data)
    ensures r.Err? && stream != null ==> stream.position == old(stream.position)
  {
    if stream == null || stream.Length() == 0 {
      return Err(General(NullOrEmptyStream));
    }
    var bytes := stream.ReadToEnd();
    return Ok(bytes);
  }

  /** ArrayToStream: refuses a null or empty array; otherwise a fresh stream
      over the same bytes at position 0. */
  method ArrayToStream(data: Option<Bytes>) returns (r: Result<MemoryStream>)
    ensures data.None? || data.value == [] <==> r.Err?
    ensures r.Err? ==> r.error == General(NullOrEmptyArray)
    ensures r.Ok? ==> fresh(r.value) && r.value.data == data.value && r.value.position == 0
  {
    if data.None? || data.value == [] {
      return Err(General(NullOrEmptyArray));
    }
    var ms := new MemoryStream(data.value);
    return Ok(ms);
  }

  /** Wrapping an array and reading the stream back returns the array;
      an empty array is refused on the way in. */
  method RoundTrip(bytes: Bytes) returns (r: Result<Bytes>)
    ensures bytes != [] ==> r == Ok(bytes)
    ensures bytes == [] ==> r == Err(General(NullOrEmptyArray))
  {
    var s := ArrayToStream(Some(bytes));
    if s.Err? {
      return Err(s.error);
    }
    r := StreamToArray(s.value);
  }
}
