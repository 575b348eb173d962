/** `PageImpl`: an in-process container of records, owning one byte buffer
    and two side tables the records point into, string references and JSON
    value references. The side tables are set whole by their setters and
    read back by index; a deprecated layer converts between msgpack values
    and JSON values element by element. */
module Pages {
  import Buffers
  import opened Outcomes

  /** A JSON value (`org.embulk.spi.json.JsonValue`), left abstract. */
  type JsonValue

  /** A msgpack value (`org.msgpack.value.ImmutableValue`), left abstract. */
  type MsgpackValue

  /** A reference that may be null. */
  datatype Option<T> = None | Some(value: T)

  /** How a page operation fails: the buffer cannot be allocated, a side
      table was never set (a `NullPointerException`), or the index is
      outside it (an `IndexOutOfBoundsException`). */
  datatype PageError = BufferNotAllocated | NullReference | IndexOutOfBounds(index: int)

  /** Element-wise conversion of a list in order, as the `ArrayList` loops
      build it. */
  function ConvertAll<A, B>(xs: seq<A>, convert: A -> B): (r: seq<B>)
    ensures |r| == |xs|
  {
    if |xs| == 0 then [] else ConvertAll(xs[..|xs| - 1], convert) + [convert(xs[|xs| - 1])]
  }

  /** Element `k` of the converted list is the conversion of element `k`. */
  lemma {:induction false} ConvertAllAt<A, B>(xs: seq<A>, convert: A -> B, k: int)
    requires 0 <= k < |xs|
    ensures ConvertAll(xs, convert)[k] == convert(xs[k])
  {
    if k < |xs| - 1 {
      ConvertAllAt(xs[..|xs| - 1], convert, k);
    }
  }

  /** Converting a list with one more element appends its conversion. */
  lemma ConvertAllSnoc<A, B>(xs: seq<A>, x: A, convert: A -> B)
    ensures ConvertAll(xs + [x], convert) == ConvertAll(xs, convert) + [convert(x)]
  {
    assert (xs + [x])[..|xs|] == xs;
  }

  /** Converting there and back gives the original list whenever the two
      conversions are inverse on its elements. The conversions themselves
      are not part of this model, so the inverse is a hypothesis. */
  lemma ConvertAllRoundTrip<A, B>(xs: seq<A>, there: A -> B, back: B -> A)
    requires forall x :: x in xs ==> back(there(x)) == x
    ensures ConvertAll(ConvertAll(xs, there), back) == xs
  {
    var ys := ConvertAll(xs, there);
    forall k | 0 <= k < |xs|
      ensures ConvertAll(ys, back)[k] == xs[k]
    {
      ConvertAllAt(ys, back, k);
      ConvertAllAt(xs, there, k);
    }
  }

  class Page {
    /** The buffer holding the serialized records; `buffer()` is this field. */
    const buffer: Buffers.Buffer
    var stringReferences: Option<seq<string>>
    var jsonValueReferences: Option<seq<JsonValue>>

    /** A page over `buffer`, with no side table set. */
    constructor (buffer: Buffers.Buffer)
      ensures this.buffer == buffer
      ensures stringReferences == None && jsonValueReferences == None
    {
      this.buffer := buffer;
      stringReferences := None;
      jsonValueReferences := None;
    }

    /** `allocate(length)`: a page over a fresh buffer of `length` bytes; a
        negative length cannot be allocated. */
    static method Allocate(length: int) returns (r: Outcome<Page, PageError>)
      ensures r.Done? <==> 0 <= length
      ensures r.Fail? ==> r.error == BufferNotAllocated
      ensures r.Done? ==> fresh(r.value) && fresh(r.value.buffer) && fresh(r.value.buffer.data)
      ensures r.Done? ==> r.value.buffer.Valid() && r.value.buffer.Capacity() == length
      ensures r.Done? ==> r.value.buffer.releaseCount == 0
      ensures r.Done? ==> r.value.stringReferences == None && r.value.jsonValueReferences == None
    {
      if length < 0 {
        return Fail(BufferNotAllocated);
      }
      var b := new Buffers.Buffer.Allocate(length);
      var p := new Page(b);
      return Done(p);
    }

    /** `wrap(buffer)`: a page over a given buffer. */
    static method Wrap(buffer: Buffers.Buffer) returns (p: Page)
      ensures fresh(p) && p.buffer == buffer
      ensures p.stringReferences == None && p.jsonValueReferences == None
    {
      p := new Page(buffer);
    }

    /** Stores the string table and returns this page; the JSON table is
        untouched. */
    method SetStringReferences(values: seq<string>) returns (p: Page)
      modifies this`stringReferences
      ensures p == this
      ensures stringReferences == Some(values)
    {
      stringReferences := Some(values);
      return this;
    }

    /** Stores the JSON table and returns this page; the string table is
        untouched. */
    method SetJsonValueReferences(jsonValues: seq<JsonValue>) returns (p: Page)
      modifies this`jsonValueReferences
      ensures p == this
      ensures jsonValueReferences == Some(jsonValues)
    {
      jsonValueReferences := Some(jsonValues);
      return this;
    }

    /** Converts every msgpack value, in order, and stores the result as the
        JSON table; returns this page. */
    method SetValueReferences(msgpackValues: seq<MsgpackValue>, toJson: MsgpackValue -> JsonValue) returns (p: Page)
      modifies this`jsonValueReferences
      ensures p == this
      ensures jsonValueReferences == Some(ConvertAll(msgpackValues, toJson))
    {
      var converted: seq<JsonValue> := [];
      for i := 0 to |msgpackValues|
        invariant converted == ConvertAll(msgpackValues[..i], toJson)
      {
        ConvertAllSnoc(msgpackValues[..i], msgpackValues[i], toJson);
        assert msgpackValues[..i + 1] == msgpackValues[..i] + [msgpackValues[i]];
        converted := converted + [toJson(msgpackValues[i])];
      }
      assert msgpackValues[..|msgpackValues|] == msgpackValues;
      p := SetJsonValueReferences(converted);
    }

    /** The JSON table converted back to msgpack values, in order, as a new
        list; the page is not changed. Without a JSON table it fails. */
    method GetValueReferences(toMsgpack: JsonValue -> MsgpackValue) returns (r: Outcome<seq<MsgpackValue>, PageError>)
      ensures jsonValueReferences.None? ==> r == Fail(NullReference)
      ensures jsonValueReferences.Some? ==> r == Done(ConvertAll(jsonValueReferences.value, toMsgpack))
    {
      if jsonValueReferences.None? {
        return Fail(NullReference);
      }
      var jsonValues := jsonValueReferences.value;
      var msgpackValues: seq<MsgpackValue> := [];
      for i := 0 to |jsonValues|
        invariant msgpackValues == ConvertAll(jsonValues[..i], toMsgpack)
      {
        ConvertAllSnoc(jsonValues[..i], jsonValues[i], toMsgpack);
        assert jsonValues[..i + 1] == jsonValues[..i] + [jsonValues[i]];
        msgpackValues := msgpackValues + [toMsgpack(jsonValues[i])];
      }
      assert jsonValues[..|jsonValues|] == jsonValues;
      return Done(msgpackValues);
    }

    /** String `index` of the table: it exists exactly when a table is set
        and the index is inside it. */
    function GetStringReference(index: int): (r: Outcome<string, PageError>)
      reads this
      ensures r.Done? <==> stringReferences.Some? && 0 <= index < |stringReferences.value|
      ensures r.Done? ==> r.value == stringReferences.value[index]
      ensures stringReferences.None? ==> r == Fail(NullReference)
      ensures stringReferences.Some? && !(0 <= index < |stringReferences.value|) ==> r == Fail(IndexOutOfBounds(index))
    {
      match stringReferences
      case None => Fail(NullReference)
      case Some(xs) => if 0 <= index < |xs| then Done(xs[index]) else Fail(IndexOutOfBounds(index))
    }

    /** JSON value `index` of the table, by the same rule. */
    function GetJsonValueReference(index: int): (r: Outcome<JsonValue, PageError>)
      reads this
      ensures r.Done? <==> jsonValueReferences.Some? && 0 <= index < |jsonValueReferences.value|
      ensures r.Done? ==> r.value == jsonValueReferences.value[index]
      ensures jsonValueReferences.None? ==> r == Fail(NullReference)
      ensures jsonValueReferences.Some? && !(0 <= index < |jsonValueReferences.value|) ==> r == Fail(IndexOutOfBounds(index))
    {
      match jsonValueReferences
      case None => Fail(NullReference)
      case Some(xs) => if 0 <= index < |xs| then Done(xs[index]) else Fail(IndexOutOfBounds(index))
    }

    /** JSON value `index` of the table, converted to a msgpack value: it
        exists exactly when the JSON value does, and it is element `index`
        of the converted table. */
    function GetValueReference(index: int, toMsgpack: JsonValue -> MsgpackValue): (r: Outcome<MsgpackValue, PageError>)
      reads this
      ensures r.Done? <==> GetJsonValueReference(index).Done?
      ensures r.Fail? ==> r.error == GetJsonValueReference(index).error
      ensures r.Done? ==> r.value == ConvertAll(jsonValueReferences.value, toMsgpack)[index]
    {
      match GetJsonValueReference(index)
      case Fail(e) => Fail(e)
      case Done(v) =>
        ConvertAllAt(jsonValueReferences.value, toMsgpack, index);
        Done(toMsgpack(v))
    }

    /** Releases the buffer once; nothing else changes. */
    method Release()
      modifies buffer`releaseCount
      ensures buffer.releaseCount == old(buffer.releaseCount) + 1
    {
      buffer.Release();
    }
  }
}
