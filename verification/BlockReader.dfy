/** Reading a compressed file block by block (Xml/config_compression.c:333-422).

    A file is the sequence of its blocks, each a header and the bytes that follow it; a header
    with both sizes 0 is the tail. Inflating a block is an unspecified function. Copies within
    the reader's array move their bytes as if read before any is written. */
module BlockReader {
  import opened Options
  import opened Sequences

  const ARRAY_SIZE := 2048

  type Byte = n: nat | n < 256

  datatype Block = Block(uncompressedBytes: int, compressedBytes: int, data: seq<Byte>)

  type Inflater = seq<Byte> -> Option<seq<Byte>>

  ghost predicate FitsArray(inflate: Inflater) {
    forall s :: inflate(s).Some? ==> |inflate(s).value| <= ARRAY_SIZE
  }

  predicate IsTail(b: Block) {
    b.uncompressedBytes == 0 && b.compressedBytes == 0
  }

  /** The block can be read: its sizes are in range, its bytes are all there and can be inflated. */
  predicate IsGood(inflate: Inflater, b: Block) {
    && 0 < b.uncompressedBytes <= ARRAY_SIZE && 0 < b.compressedBytes <= ARRAY_SIZE
    && |b.data| >= b.compressedBytes
    && (b.compressedBytes < b.uncompressedBytes ==> inflate(b.data[..b.compressedBytes]).Some?)
  }

  function BlockContent(inflate: Inflater, b: Block): seq<Byte>
    requires IsGood(inflate, b)
  {
    if b.compressedBytes < b.uncompressedBytes then inflate(b.data[..b.compressedBytes]).value else b.data[..b.compressedBytes]
  }

  /** What the blocks hold, up to the tail or the first block that cannot be read. */
  function Content(inflate: Inflater, file: seq<Block>): seq<Byte> {
    if file == [] || IsTail(file[0]) || !IsGood(inflate, file[0]) then []
    else BlockContent(inflate, file[0]) + Content(inflate, file[1..])
  }

  /** The blocks that can be read are followed by a tail. */
  predicate EndsWell(inflate: Inflater, file: seq<Block>) {
    file != [] && (IsTail(file[0]) || (IsGood(inflate, file[0]) && EndsWell(inflate, file[1..])))
  }

  /** What the next block gives, by its sizes: a block that is no smaller compressed is stored as it is. */
  lemma {:induction false} ContentByBlock(inflate: Inflater, b: Block, rest: seq<Block>)
    ensures Content(inflate, []) == [] && !EndsWell(inflate, [])
    ensures var u, c := b.uncompressedBytes, b.compressedBytes;
            var sized := 1 <= u <= 2048 && 1 <= c <= 2048 && c <= |b.data|;
            && (sized && c >= u ==>
                  && Content(inflate, [b] + rest) == b.data[..c] + Content(inflate, rest)
                  && (EndsWell(inflate, [b] + rest) <==> EndsWell(inflate, rest)))
            && (sized && c < u && inflate(b.data[..c]).Some? ==>
                  && Content(inflate, [b] + rest) == inflate(b.data[..c]).value + Content(inflate, rest)
                  && (EndsWell(inflate, [b] + rest) <==> EndsWell(inflate, rest)))
            && (!sized || (c < u && inflate(b.data[..c]).None?) ==>
                  && Content(inflate, [b] + rest) == []
                  && (EndsWell(inflate, [b] + rest) <==> u == 0 && c == 0))
  {
    assert ([b] + rest)[1..] == rest;
  }

  class Reader {
    const inflate: Inflater
    const bytes: array<Byte>
    var file: seq<Block>  // what has not been read
    var eof: bool
    var leftOver: nat
    var ended: bool

    ghost predicate Valid()
      reads this
    {
      bytes.Length == ARRAY_SIZE && leftOver <= ARRAY_SIZE && FitsArray(inflate)
    }

    /** What the blocks not yet read hold. */
    ghost function Unread(): seq<Byte>
      reads this`file, this`eof, this`ended
    {
      if eof || ended then [] else Content(inflate, file)
    }

    /** All that reading on would give. */
    ghost function Pending(): seq<Byte>
      requires Valid()
      reads this, bytes
    {
      bytes[..leftOver] + Unread()
    }

    ghost predicate WillEndWell()
      reads this`file, this`eof, this`ended
    {
      eof || ended || EndsWell(inflate, file)
    }

    constructor (inflate: Inflater, file: seq<Block>)
      requires FitsArray(inflate)
      ensures Valid() && fresh(bytes) && Pending() == Content(inflate, file) && (WillEndWell() <==> EndsWell(inflate, file))
    {
      this.inflate, this.file := inflate, file;
      bytes := new Byte[ARRAY_SIZE](i => 0);
      eof, leftOver, ended := false, 0, false;
    }

    /** Move the bytes from k on to the front. */
    method SlideUp(k: nat, n: nat)
      requires bytes.Length == ARRAY_SIZE && k + n <= ARRAY_SIZE
      modifies bytes
      ensures bytes[..n] == old(bytes[k..k + n])
    {
      forall i | 0 <= i < n {
        bytes[i] := bytes[k + i];
      }
    }

    method CopyTo(buffer: array<Byte>, at: nat, n: nat)
      requires buffer != bytes && at + n <= buffer.Length && n <= bytes.Length
      modifies buffer
      ensures buffer[..at + n] == old(buffer[..at]) + bytes[..n]
    {
      forall i | 0 <= i < n {
        buffer[at + i] := bytes[i];
      }
      assert buffer[..at] == old(buffer[..at]) && buffer[at..at + n] == bytes[..n];
      assert buffer[..at + n] == buffer[..at] + buffer[at..at + n];
    }

    /** Read the next block into the array. None if it cannot be read; the tail gives no bytes. */
    method LoadBlock() returns (r: Option<nat>)
      requires Valid() && !eof && !ended && leftOver == 0
      modifies this`file, this`eof, this`ended, bytes
      ensures Valid() && leftOver == 0
      ensures r.None? ==> old(Pending()) == [] && !old(WillEndWell())
      ensures r.Some? ==> r.value <= ARRAY_SIZE && !eof && (old(WillEndWell()) <==> WillEndWell())
      ensures r.Some? && ended ==> r.value == 0 && old(Pending()) == Pending() == []
      ensures r.Some? && !ended ==> old(Pending()) == bytes[..r.value] + Pending() && |file| < |old(file)|
    {
      hide FitsArray;
      if file == [] {
        eof := true;
        return None;
      }
      var header := file[0];
      file := file[1..];
      if header.uncompressedBytes == 0 && header.compressedBytes == 0 {
        ended := true;
        return Some(0);
      }
      if header.uncompressedBytes > ARRAY_SIZE || header.uncompressedBytes <= 0 {
        return None;
      }
      if header.compressedBytes > ARRAY_SIZE || header.compressedBytes <= 0 {
        return None;
      }
      if |header.data| < header.compressedBytes {
        eof := true;
        return None;
      }
      var compressed := header.data[..header.compressedBytes];
      if header.compressedBytes < header.uncompressedBytes {
        var inflated := inflate(compressed);
        if inflated.None? {
          return None;
        }
        InflatedFits(compressed);
        Fill(inflated.value);
        return Some(|inflated.value|);
      } else {
        Fill(compressed);
        return Some(header.compressedBytes);
      }
    }

    lemma InflatedFits(s: seq<Byte>)
      requires FitsArray(inflate) && inflate(s).Some?
      ensures |inflate(s).value| <= ARRAY_SIZE
    {
    }

    method Fill(s: seq<Byte>)
      requires |s| <= bytes.Length
      modifies bytes
      ensures bytes[..|s|] == s
    {
      forall i | 0 <= i < |s| {
        bytes[i] := s[i];
      }
    }

    /** Move the first `have` bytes of the array to the buffer; what does not fit is left over. */
    method Deliver(buffer: array<Byte>, bufsize: nat, index: nat, have: nat) returns (index': nat)
      requires Valid() && buffer != bytes && index <= bufsize <= buffer.Length && have <= ARRAY_SIZE
      modifies this`leftOver, bytes, buffer
      ensures Valid() && index <= index' <= bufsize && (leftOver > 0 ==> index' == bufsize)
      ensures buffer[..index'] + bytes[..leftOver] == old(buffer[..index] + bytes[..have])
    {
      var count := have;
      leftOver := 0;
      if have + index > bufsize {
        count := bufsize - index;
        leftOver := have - count;
      }
      CopyTo(buffer, index, count);
      assert buffer[..index + count] == old(buffer[..index]) + old(bytes[..count]);
      assert old(bytes[..have]) == old(bytes[..count]) + old(bytes[count..have]);
      if leftOver > 0 {
        SlideUp(count, leftOver);
      }
      index' := index + count;
    }

    /** The buffer holds the first `index` bytes of `all`, the rest is pending. */
    ghost predicate Reading(all: seq<Byte>, buffer: array<Byte>, bufsize: nat, index: nat)
      reads this, bytes, buffer
    {
      && Valid() && index <= bufsize <= buffer.Length && (leftOver > 0 ==> index == bufsize)
      && all == buffer[..index] + Pending()
    }

    /** Read one more block into the buffer; stop at the tail or at a block that cannot be read. */
    method ReadBlock(buffer: array<Byte>, bufsize: nat, index: nat, ghost all: seq<Byte>) returns (index': nat, failed: bool)
      requires Reading(all, buffer, bufsize, index) && buffer != bytes && index < bufsize && !eof && !ended
      modifies this`file, this`eof, this`ended, this`leftOver, bytes, buffer
      ensures Valid() && (failed ==> |all| < bufsize && !old(WillEndWell()))
      ensures !failed ==> Reading(all, buffer, bufsize, index') && (WillEndWell() <==> old(WillEndWell()))
      ensures !failed ==> if ended then leftOver == 0 else |file| < |old(file)|
    {
      hide FitsArray, Content, EndsWell, Unread, WillEndWell;
      index', failed := index, false;
      var loaded := LoadBlock();
      if loaded.None? {
        failed := true;
        return;
      }
      if ended {
        return;
      }
      ghost var sofar, block := buffer[..index], bytes[..loaded.value];
      AppendAssociates(sofar, block, Unread());
      index' := Deliver(buffer, bufsize, index, loaded.value);
      assert buffer[..index'] + bytes[..leftOver] == sofar + block;
      AppendAssociates(buffer[..index'], bytes[..leftOver], Unread());
    }

    /** Read up to bufsize bytes. What is read is the next piece of the file's content, as long as
        asked for unless the content ends; -1 exactly when it ends early and badly. */
    method ReadUncompressedBytes(buffer: array<Byte>, bufsize: nat) returns (n: int)
      requires Valid() && buffer != bytes && bufsize <= buffer.Length
      modifies this`file, this`eof, this`ended, this`leftOver, bytes, buffer
      ensures Valid()
      ensures n == -1 <==> bufsize > |old(Pending())| && !old(WillEndWell())
      ensures n != -1 ==> n == if bufsize <= |old(Pending())| then bufsize else |old(Pending())|
      ensures n != -1 ==> buffer[..n] == old(Pending())[..n] && Pending() == old(Pending())[n..]
      ensures n != -1 ==> (WillEndWell() <==> old(WillEndWell()))
      ensures 0 < n < bufsize ==> buffer[n] == 0
    {
      hide FitsArray, Content, EndsWell, Unread;
      ghost var all := Pending();
      var index: nat := 0;
      if leftOver > 0 {
        ghost var held := bytes[..leftOver];
        index := Deliver(buffer, bufsize, 0, leftOver);
        assert buffer[..index] + bytes[..leftOver] == held;
        AppendAssociates(buffer[..index], bytes[..leftOver], Unread());
      }
      assert all == buffer[..index] + Pending();
      while index < bufsize && !eof && !ended
        invariant Reading(all, buffer, bufsize, index) && (WillEndWell() <==> old(WillEndWell()))
        decreases |file|
      {
        var failed;
        index, failed := ReadBlock(buffer, bufsize, index, all);
        if failed {
          return -1;
        }
        if ended {
          break;
        }
      }
      Finished(all, index, bufsize, buffer);
      if 0 < index < bufsize {
        buffer[index] := 0;
      }
      return index;
    }

    lemma Finished(all: seq<Byte>, index: nat, bufsize: nat, buffer: array<Byte>)
      requires Valid() && index <= bufsize <= buffer.Length && all == buffer[..index] + Pending()
      requires index == bufsize || (leftOver == 0 && (eof || ended))
      ensures index == if bufsize <= |all| then bufsize else |all|
      ensures buffer[..index] == all[..index] && Pending() == all[index..]
    {
    }
  }

  const BUFFSIZE := 8192

  /** Read to the end in pieces, as the parser does (Xml/ixml.c, IXmlParserReadFile): it gets the
      whole content, unless the file ends badly. */
  method ReadFile(r: Reader) returns (content: seq<Byte>, ok: bool)
    requires r.Valid()
    modifies r`file, r`eof, r`ended, r`leftOver, r.bytes
    ensures ok <==> old(r.WillEndWell())
    ensures ok ==> content == old(r.Pending())
  {
    hide Reader.Pending, Reader.WillEndWell, FitsArray;
    ghost var all, well := r.Pending(), r.WillEndWell();
    var buffer := new Byte[BUFFSIZE](i => 0);
    content, ok := [], true;
    while true
      invariant r.Valid() && all == content + r.Pending() && (r.WillEndWell() <==> well)
      decreases |r.Pending()|
    {
      ghost var before := r.Pending();
      var n := r.ReadUncompressedBytes(buffer, BUFFSIZE);
      if n < 0 {
        return content, false;
      }
      assert before == before[..n] + before[n..];
      content := content + buffer[..n];
      if n == 0 {
        break;
      }
    }
  }
}
