/** `TCompactProtocol` as an object: the bytes it has written or still has to read, and
    the field-identifier state that makes field headers relative to the previous field of
    the enclosing struct. */
module CompactStreams {
  import opened Wrappers
  import opened ByteStrings
  import opened CompactProtocol

  class CompactWriter {
    var out: Bytes
    var lastFieldId: int
    var stack: seq<int>

    constructor ()
      ensures out == [] && lastFieldId == 0 && stack == []
    {
      out, lastFieldId, stack := [], 0, [];
    }

    /** The field state a struct writer must restore. */
    function Fields(): (int, seq<int>)
      reads this
    {
      (lastFieldId, stack)
    }

    method WriteStructBegin()
      modifies this
      ensures out == old(out) && Fields() == (0, old(stack) + [old(lastFieldId)])
    {
      stack := stack + [lastFieldId];
      lastFieldId := 0;
    }

    method WriteStructEnd()
      requires |stack| > 0
      modifies this
      ensures out == old(out) && Fields() == (old(stack)[|old(stack)| - 1], old(stack)[..|old(stack)| - 1])
    {
      lastFieldId := stack[|stack| - 1];
      stack := stack[..|stack| - 1];
    }

    method WriteFieldBegin(code: TypeCode, id: int)
      modifies this
      ensures out == old(out) + FieldHeader(old(lastFieldId), id, code)
      ensures Fields() == (id, old(stack))
    {
      if lastFieldId < id && id - lastFieldId <= 15 {
        out := out + [16 * (id - lastFieldId) + code];
      } else {
        out := out + [code];
        out := out + Varint(ZigZag(id));
      }
      lastFieldId := id;
    }

    /** Every writer without a field state of its own. */
    method Write(bytes: Bytes)
      modifies this
      ensures out == old(out) + bytes && Fields() == old(Fields())
    {
      out := out + bytes;
    }
  }

  class CompactReader {
    var rest: Bytes
    var lastFieldId: int
    var stack: seq<int>

    constructor (input: Bytes)
      ensures rest == input && lastFieldId == 0 && stack == []
    {
      rest, lastFieldId, stack := input, 0, [];
    }

    function Fields(): (int, seq<int>)
      reads this
    {
      (lastFieldId, stack)
    }

    method ReadStructBegin()
      modifies this
      ensures rest == old(rest) && Fields() == (0, old(stack) + [old(lastFieldId)])
    {
      stack := stack + [lastFieldId];
      lastFieldId := 0;
    }

    method ReadStructEnd()
      requires |stack| > 0
      modifies this
      ensures rest == old(rest) && Fields() == (old(stack)[|old(stack)| - 1], old(stack)[..|old(stack)| - 1])
    {
      lastFieldId := stack[|stack| - 1];
      stack := stack[..|stack| - 1];
    }

    /** Takes a parse result over: the value, or an exception that leaves the input alone. */
    method Take<T>(p: Parse<T>) returns (r: Option<T>)
      modifies this
      ensures p.Got? ==> r == Some(p.value) && rest == p.rest
      ensures p.Malformed? ==> r.None? && rest == old(rest)
      ensures Fields() == old(Fields())
    {
      match p
      case Got(v, tail) =>
        rest := tail;
        r := Some(v);
      case Malformed =>
        r := None;
    }

    method ReadFieldBegin() returns (r: Option<Header>)
      modifies this
      ensures var p := ReadFieldHeader(old(lastFieldId), old(rest));
        && (p.Got? ==> r == Some(p.value) && rest == p.rest)
        && (p.Malformed? ==> r.None? && rest == old(rest))
      ensures stack == old(stack)
      ensures lastFieldId == if r.Some? && r.value.Field? then r.value.id else old(lastFieldId)
    {
      r := Take(ReadFieldHeader(lastFieldId, rest));
      if r.Some? && r.value.Field? {
        lastFieldId := r.value.id;
      }
    }
  }
}
