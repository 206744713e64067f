/**
 * Body parts: the chunks of content that the output modules of the HTTP
 * pipeline generate, rewrite and pass on, ordered by their index.
 */
module BodyParts {
  /**
   * The kind of a body part: the storage kinds of SBodyPart (raw bytes,
   * a file, a lazily generated part) and the HTTP control parts of
   * SHttpMessage, which carry a command rather than content.
   */
  datatype PartType =
    | Raw
    | File
    | Lazy
    | OpenSubMessage
    | CloseSubMessage
    | CloseConnection
    | ContentFinished

  /** The value of a body part: its index, its kind and its bytes. */
  datatype Part = Part(index: nat, kind: PartType, data: string)

  /** A finishing part: the content is complete, or the connection is to close. */
  predicate IsFinish(p: Part) {
    p.kind == CloseConnection || p.kind == ContentFinished
  }

  // ---------------------------------------------------------------------
  // SBodyPartComparer

  /** comparer(a, b): b's index is smaller, i.e. a comes later in the output. */
  predicate Comparer(a: Part, b: Part) {
    b.index < a.index
  }

  /** The comparer is a strict weak order, as std::priority_queue requires. */
  lemma {:induction false} ComparerIsStrictWeakOrder(a: Part, b: Part, c: Part)
    ensures !Comparer(a, a)
    ensures Comparer(a, b) && Comparer(b, c) ==> Comparer(a, c)
    ensures Comparer(a, b) ==> !Comparer(b, a)
    ensures !Comparer(a, b) && !Comparer(b, a) <==> a.index == b.index
  {
  }

  /**
   * The top of a priority queue under a comparer is an element that no
   * other element outranks: for SBodyPartComparer, one of least index.
   */
  predicate IsTop(q: seq<Part>, t: Part) {
    t in q && forall p :: p in q ==> !Comparer(t, p)
  }

  /** The top of the queue is exactly a part of least index. */
  lemma {:induction false} TopIsSmallestIndex(q: seq<Part>, t: Part)
    ensures IsTop(q, t) <==> t in q && forall p :: p in q ==> t.index <= p.index
  {
  }

  // ---------------------------------------------------------------------
  // The body part object

  /**
   * SRawBodyPart (and the SBodyPart of message.cpp, which has the same body
   * operations): a body part whose bytes are stored in a vector, with the
   * count of bytes already sent on the connection.
   */
  class BodyPart {
    var index: nat
    var kind: PartType
    var data: string
    var bytesWritten: nat

    /** SBodyPart(index, type): an empty part. */
    constructor (index: nat, kind: PartType)
      ensures this.index == index && this.kind == kind && data == [] && bytesWritten == 0
    {
      this.index := index;
      this.kind := kind;
      data := [];
      bytesWritten := 0;
    }

    /** The part as a value. */
    function Value(): (p: Part)
      reads this
      ensures p.index == index && p.kind == kind && p.data == data
    {
      Part(index, kind, data)
    }

    /** Size(): the number of bytes in the body. */
    function Size(): (n: nat)
      reads this
      ensures n == |data|
    {
      |data|
    }

    /** Reset: the body becomes empty. */
    method Reset()
      modifies this
      ensures data == [] && index == old(index) && kind == old(kind) && bytesWritten == old(bytesWritten)
    {
      data := [];
    }

    /** SetBody(buffer, size): the body becomes a copy of the buffer. */
    method SetBody(buffer: string)
      modifies this
      ensures data == buffer && index == old(index) && kind == old(kind) && bytesWritten == old(bytesWritten)
    {
      data := buffer;
    }

    /** AppendToBody(buffer, size): the buffer is added at the end. */
    method AppendToBody(buffer: string)
      modifies this
      ensures data == old(data) + buffer
      ensures |data| == |old(data)| + |buffer|
      ensures data[..|old(data)|] == old(data) && data[|old(data)|..] == buffer
      ensures index == old(index) && kind == old(kind) && bytesWritten == old(bytesWritten)
    {
      data := data + buffer;
    }

    /**
     * InsertInBody(buffer, size, offset): the buffer is inserted before
     * position offset; what was before it and after it is kept.
     */
    method InsertInBodyAt(buffer: string, offset: nat)
      requires offset <= |data|
      modifies this
      ensures |data| == |old(data)| + |buffer|
      ensures data[..offset] == old(data)[..offset]
      ensures data[offset..offset + |buffer|] == buffer
      ensures data[offset + |buffer|..] == old(data)[offset..]
      ensures index == old(index) && kind == old(kind) && bytesWritten == old(bytesWritten)
    {
      data := data[..offset] + buffer + data[offset..];
      assert data[offset..offset + |buffer|] == buffer;
      assert data[offset + |buffer|..] == old(data)[offset..];
    }

    /**
     * InsertInBody(string, offset): forwards to the buffer overload without
     * the offset, so the text always goes in front whatever offset says.
     */
    method InsertInBody(text: string, offset: nat)
      modifies this
      ensures data == text + old(data)
      ensures index == old(index) && kind == old(kind) && bytesWritten == old(bytesWritten)
    {
      InsertInBodyAt(text, 0);
      assert data == text + old(data);
    }

    /**
     * WriteToStream(output, from): a raw part writes its bytes from
     * position from on and returns their number; file and lazy parts write
     * nothing and return 0.
     */
    method WriteToStream(from: nat) returns (written: string, count: int)
      requires kind == Raw ==> from <= |data|
      ensures kind == Raw ==> written == data[from..] && count == |data| - from
      ensures kind != Raw ==> written == [] && count == 0
    {
      if kind == Raw {
        written := data[from..];
        count := |data| - from;
      } else {
        written := [];
        count := 0;
      }
    }

    /**
     * WriteToConnection(conn, numWritten): a raw part offers the bytes not
     * yet sent; sent is what the connection reports having written (an
     * error when negative).  The sent count grows by a positive report, and
     * the result says whether the write was short.  A lazy part writes
     * nothing and returns false.
     */
    method WriteToConnection(sent: int) returns (offered: string, more: bool, numWritten: int)
      requires kind != File
      requires kind == Raw ==> bytesWritten <= |data| && sent <= |data| - bytesWritten
      modifies this
      ensures data == old(data) && index == old(index) && kind == old(kind)
      ensures kind == Raw ==> offered == old(data)[old(bytesWritten)..] && numWritten == sent
      ensures kind == Raw ==> bytesWritten == (if sent > 0 then old(bytesWritten) + sent else old(bytesWritten))
      ensures kind == Raw ==> (more <==> sent != |old(data)| - old(bytesWritten))
      ensures kind == Raw ==> bytesWritten <= |data|
      ensures kind != Raw ==> offered == [] && !more && numWritten == 0 && bytesWritten == old(bytesWritten)
    {
      if kind != Raw {
        // A lazy part (the only other kind allowed here) returns at once:
        // nothing is offered, nothing is counted as written.
        return [], false, 0;
      }
      var length := |data| - bytesWritten;
      offered := data[bytesWritten..];
      numWritten := sent;
      if sent > 0 {
        bytesWritten := bytesWritten + sent;
      }
      more := numWritten != length;
    }
  }

  /**
   * Sending a body in several WriteToConnection calls: once the counts
   * reported add up to the size, the whole body has been offered in order
   * and the part reports no more to write.
   */
  lemma {:induction false} SentPiecesCoverBody(data: string, k: nat, sent: nat)
    requires k + sent <= |data|
    ensures data[..k] + data[k..][..sent] == data[..k + sent]
    ensures k + sent == |data| ==> data[..k + sent] == data
  {
    assert data[k..][..sent] == data[k..k + sent];
  }
}
