/** The windowed file reader of the STEP parser (IfcParse.cpp, `File`): the
    file on disk is `content`; at most `cap` characters of it starting at
    `offset` are held in `buffer`, and the cursor is `ptr` into that
    window. The stream is abstracted: a load at `o` yields the next
    `Chunk(o)` characters of `content`. */
module StepFile {
  import opened Wrappers

  /** `BUF_SIZE`: 32 MiB. */
  const BufSize: nat := 32 * 1024 * 1024

  function Min(a: nat, b: nat): nat { if a < b then a else b }

  class File {
    /** The file on disk. */
    const content: seq<char>
    /** `size`, measured once when the file is opened. */
    const size: nat
    /** The size of the allocated buffer, `min(size, BUF_SIZE)`. */
    const cap: nat
    /** `valid`: the file could be opened. */
    const valid: bool

    /** The loaded window: `buffer[0..len]` is `content[offset..offset+len]`. */
    var buffer: seq<char>
    var ptr: nat
    var len: nat
    var offset: nat
    var eof: bool

    /** How many characters one read at `o` delivers. */
    function Chunk(o: nat): nat
      reads this
    {
      if o >= size then 0 else Min(cap, size - o)
    }

    /** The window holds exactly what one read at `offset` delivered. */
    predicate Loaded()
      reads this
    {
      valid && size == |content| && cap == Min(size, BufSize) &&
      len == Chunk(offset) &&
      (len > 0 ==> offset + len <= size) &&
      buffer == (if len == 0 then [] else content[offset..offset + len])
    }

    /** A loaded window with the cursor inside it, or an empty window at
        end of file. */
    predicate Valid()
      reads this
    {
      Loaded() && (eof <==> len == 0) && (len == 0 ==> ptr == 0) && (len > 0 ==> ptr < len)
    }

    /** `Tell`: the cursor as a file position. */
    function Tell(): nat
      reads this
    {
      offset + ptr
    }

    /** `File(fn)`: `data` is the file's content, None when it cannot be
        opened. */
    constructor (data: Option<seq<char>>)
      ensures valid <==> data.Some?
      ensures data.Some? ==> Valid() && content == data.value && Tell() == 0 && (eof <==> |content| == 0)
    {
      valid := data.Some?;
      var c := if data.Some? then data.value else [];
      content, size, cap := c, |c|, Min(|c|, BufSize);
      buffer, ptr, len, offset, eof := [], 0, 0, 0, true;
      new;
      if valid {
        ReadBuffer(false);
      }
    }

    /** `ReadBuffer(inc)`: with `inc`, moves the window past the loaded
        part; then loads the window anew with the cursor at its start. */
    method ReadBuffer(inc: bool)
      requires valid && size == |content| && cap == Min(size, BufSize)
      requires inc ==> Loaded()
      modifies this
      ensures offset == (if inc then old(offset + len) else old(offset))
      ensures Loaded() && ptr == 0 && (eof <==> len == 0)
    {
      if inc {
        offset := offset + len;
      }
      len := Chunk(offset);
      buffer := if len == 0 then [] else content[offset..offset + len];
      eof := len == 0;
      ptr := 0;
    }

    /** `Seek(o)`: inside the window only the cursor moves; otherwise the
        window is reloaded at `o`. */
    method Seek(o: nat)
      requires Valid()
      modifies this
      ensures Valid() && Tell() == o && (eof <==> o >= size)
      ensures old(o >= offset && o < offset + len) ==>
        offset == old(offset) && len == old(len) && buffer == old(buffer) && eof == old(eof)
      ensures old(!(o >= offset && o < offset + len)) ==> offset == o && ptr == 0
    {
      if o >= offset && o < offset + len {
        ptr := o - offset;
      } else {
        offset := o;
        ReadBuffer(false);
      }
    }

    /** `Peek`: the character at the cursor. */
    method Peek() returns (c: char)
      requires Valid() && !eof
      ensures Tell() < size && c == content[Tell()]
    {
      c := buffer[ptr];
    }

    /** `Read(o)`: the character at `o`, from the window or the stream;
        None stands for the stream's end-of-file value. */
    method Read(o: nat) returns (c: Option<char>)
      requires Valid()
      ensures c == if o < size then Some(content[o]) else None
    {
      if o >= offset && o < offset + len {
        c := Some(buffer[o - offset]);
      } else {
        c := if o < size then Some(content[o]) else None;
      }
    }

    /** `Inc`: one character on, loading the next chunk when the window is
        used up. */
    method Inc()
      requires Valid() && !eof
      modifies this
      ensures Valid() && Tell() == old(Tell()) + 1
      ensures eof <==> Tell() >= size
    {
      ptr := ptr + 1;
      if ptr == len {
        ReadBuffer(true);
      }
    }
  }
}
