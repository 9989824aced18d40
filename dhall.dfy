/**
 * The Dhall literals that the deployment description is written in: the
 * __str__ renderers of Maybe, DList, Text, DhallTuple, Protocol and
 * PoolType, the accessors of Maybe and DList, and the message of
 * MissingKeyError.
 */
module Dhall {
  import opened Wrappers
  import Numerals
  import Strings

  /** The network protocol of a node's data interface. */
  datatype Protocol = O2ib | Tcp {
    function Name(): string {
      match this
      case O2ib => "o2ib"
      case Tcp => "tcp"
    }

    /** Protocol.__str__: the member as a constructor of the Dhall union P. */
    function ToString(): (r: string)
      ensures |r| > 2 && r[..2] == "P." && r[2..] == Name()
    {
      "P." + Name()
    }
  }

  /** The kind of a storage pool. */
  datatype PoolType = Sns | Dix | Md {
    function Name(): string {
      match this
      case Sns => "sns"
      case Dix => "dix"
      case Md => "md"
    }

    /** PoolType.__str__: the member as a constructor of the Dhall union T.PoolType. */
    function ToString(): (r: string)
      ensures |r| > 11 && r[..11] == "T.PoolType." && r[11..] == Name()
    {
      "T.PoolType." + Name()
    }
  }

  /** A Dhall text literal; Python's own str would print with single quotes. */
  datatype Text = Text(s: string) {
    /** Text.__str__: the string in double quotes, inner characters as they are. */
    function ToString(): (r: string)
      ensures |r| == |s| + 2 && r[0] == '"' && r[|r| - 1] == '"' && r[1..|r| - 1] == s
    {
      "\"" + s + "\""
    }
  }

  /**
   * The values a description field may hold: Python ints and bools, the
   * wrappers of this module, and records of named fields.
   */
  datatype Value =
    | IntV(i: int)
    | BoolV(b: bool)
    | TextV(text: Text)
    | ProtocolV(protocol: Protocol)
    | PoolTypeV(poolType: PoolType)
    | MaybeV(maybe: Maybe)
    | DListV(list: DList)
    | TupleV(tuple: DhallTuple)

  /** An optional value with the Dhall type to print when it is absent. */
  datatype Maybe = Maybe(value: Option<Value>, comment: string) {
    /** Maybe.get: the value the text shows after 'Some (', or nothing when the text is 'None (...)'. */
    function Get(): (r: Option<Value>)
      ensures r.Some? ==> ToString() == "Some (" + Render(r.value) + ")"
      ensures r.None? ==> ToString() == "None (" + comment + ")"
    {
      value
    }

    /**
     * Maybe.__str__: the tag 'None (' or 'Some (' tells whether a value is
     * present, and what stands between it and the closing ')' is the
     * comment when absent and the value's text when present, so the
     * comment never shows beside a value.
     */
    function ToString(): (r: string)
      ensures |r| >= 7 && r[|r| - 1] == ')'
      ensures r[..6] == (if value.None? then "None (" else "Some (")
      ensures r[6..|r| - 1] == (if value.None? then comment else Render(value.value))
      decreases this
    {
      if value.None? then "None (" + comment + ")"
      else "Some (" + Render(value.value) + ")"
    }
  }

  /** A list with the Dhall type to print when it is empty. */
  datatype DList = DList(value: seq<Value>, comment: string) {
    /** DList.__len__. */
    function Len(): nat
    {
      |value|
    }

    /**
     * DList.__getitem__ with an integer index: negative indices count from
     * the end, and an index outside the list raises IndexError.
     */
    function GetItem(ndx: int): (r: Option<Value>)
      ensures r.Some? <==> 0 <= ndx + Len() && ndx < Len()
      ensures 0 <= ndx < Len() ==> r == Some(value[ndx])
      ensures 0 <= ndx + Len() && ndx < 0 ==> r == Some(value[ndx + Len()])
    {
      if 0 <= ndx < |value| then Some(value[ndx])
      else if 0 <= ndx + |value| && ndx < 0 then Some(value[ndx + |value|])
      else None
    }

    /**
     * DList.__str__: an empty list prints its comment as a type annotation;
     * otherwise the items' texts, joined by ', ', stand in brackets.
     */
    function ToString(): (r: string)
      ensures |value| == 0 ==> r == "[] : " + comment
      ensures |value| == 1 ==> r == "[" + Render(value[0]) + "]"
      ensures |value| > 0 ==> |r| >= 2 && r[0] == '[' && r[|r| - 1] == ']'
      decreases this
    {
      if |value| == 0 then "[] : " + comment
      else "[" + Strings.Join(", ", RenderAll(value)) + "]"
    }
  }

  /**
   * __len__ bounds __getitem__: the indices -len .. len - 1 are exactly the
   * valid ones, and i and i - len name the same item.
   */
  lemma LenIndexes(l: DList)
    ensures l.GetItem(l.Len()).None? && l.GetItem(-(l.Len() as int) - 1).None?
    ensures forall i :: 0 <= i < l.Len() ==>
      l.GetItem(i) == l.GetItem(i - l.Len() as int) == Some(l.value[i])
  {
  }

  /** One field of a record: its name and its value. */
  datatype Field = Field(name: string, value: Value)

  /** A record whose fields are listed in declaration order. */
  datatype DhallTuple = DhallTuple(fields: seq<Field>) {
    /** DhallTuple.__str__: '{ ' then 'name = value' per field joined by ', ', then ' }'. */
    function ToString(): (r: string)
      ensures |r| >= 4 && r[..2] == "{ " && r[|r| - 2..] == " }"
      ensures |fields| == 0 ==> r == "{  }"
      ensures |fields| == 1 ==> r == "{ " + fields[0].name + " = " + Render(fields[0].value) + " }"
      decreases this
    {
      "{ " + Strings.Join(", ", RenderFields(fields)) + " }"
    }
  }

  /** str() of a value: never empty, as each case prints at least its own delimiters or digits. */
  function Render(v: Value): (r: string)
    ensures |r| > 0
    ensures v.BoolV? ==> r == (if v.b then "True" else "False")
    decreases v
  {
    match v
    case IntV(i) => Numerals.Decimal(i)
    case BoolV(b) => if b then "True" else "False"
    case TextV(t) => t.ToString()
    case ProtocolV(p) => p.ToString()
    case PoolTypeV(t) => t.ToString()
    case MaybeV(m) => m.ToString()
    case DListV(l) => l.ToString()
    case TupleV(t) => t.ToString()
  }

  /** str() of each item, in order. */
  function RenderAll(items: seq<Value>): (r: seq<string>)
    ensures |r| == |items|
    decreases items
  {
    if |items| == 0 then [] else [Render(items[0])] + RenderAll(items[1..])
  }

  /** 'name = value' for each field, in order. */
  function RenderFields(fields: seq<Field>): (r: seq<string>)
    ensures |r| == |fields|
    decreases fields
  {
    if |fields| == 0 then []
    else [fields[0].name + " = " + Render(fields[0].value)] + RenderFields(fields[1..])
  }

  /** Rendering item by item keeps the items' order: the i-th string is the i-th item's. */
  lemma {:induction false} RenderAllAt(items: seq<Value>, i: nat)
    requires i < |items|
    ensures RenderAll(items)[i] == Render(items[i])
  {
    if i > 0 {
      RenderAllAt(items[1..], i - 1);
    }
  }

  lemma {:induction false} RenderAllAppend(items: seq<Value>, x: Value)
    ensures RenderAll(items + [x]) == RenderAll(items) + [Render(x)]
  {
    if |items| > 0 {
      assert (items + [x])[1..] == items[1..] + [x];
      RenderAllAppend(items[1..], x);
    }
  }

  lemma {:induction false} RenderFieldsAppend(fields: seq<Field>, f: Field)
    ensures RenderFields(fields + [f]) == RenderFields(fields) + [f.name + " = " + Render(f.value)]
  {
    if |fields| > 0 {
      assert (fields + [f])[1..] == fields[1..] + [f];
      RenderFieldsAppend(fields[1..], f);
    }
  }

  /**
   * Appending an item to a non-empty list puts ', ' and the item's text
   * before the closing bracket, whatever the comments.
   */
  lemma DListAppendLayout(items: seq<Value>, x: Value, comment: string, comment': string)
    requires |items| > 0
    ensures var before := DList(items, comment').ToString();
      && |before| > 0 && before[|before| - 1] == ']'
      && DList(items + [x], comment).ToString() == before[..|before| - 1] + ", " + Render(x) + "]"
  {
    RenderAllAppend(items, x);
    Strings.JoinAppendEnclosed("[", "]", ", ", RenderAll(items), Render(x));
  }

  /** A field added at the end of a record is printed last, after ', '. */
  lemma TupleAppendLayout(fields: seq<Field>, f: Field)
    requires |fields| > 0
    ensures var before := DhallTuple(fields).ToString();
      && |before| >= 2 && before[|before| - 2..] == " }"
      && DhallTuple(fields + [f]).ToString()
         == before[..|before| - 2] + ", " + (f.name + " = " + Render(f.value)) + " }"
  {
    RenderFieldsAppend(fields, f);
    Strings.JoinAppendEnclosed("{ ", " }", ", ", RenderFields(fields), f.name + " = " + Render(f.value));
  }

  /**
   * Because inner quotes are not escaped, two different lists of texts
   * can print the same: ["a", "b"] is also the list holding the one
   * text a", "b.
   */
  lemma TextNotEscaped()
    ensures DList([TextV(Text("a")), TextV(Text("b"))], "List Text")
            != DList([TextV(Text("a\", \"b"))], "List Text")
    ensures DList([TextV(Text("a")), TextV(Text("b"))], "List Text").ToString()
            == DList([TextV(Text("a\", \"b"))], "List Text").ToString()
  {
    var two := [TextV(Text("a")), TextV(Text("b"))];
    DListAppendLayout([two[0]], two[1], "List Text", "List Text");
    assert [two[0]] + [two[1]] == two;
  }

  /** Each protocol and pool type prints under its own name in its own union. */
  lemma EnumLayouts(p: Protocol, q: Protocol, t: PoolType, u: PoolType)
    ensures p.ToString() == q.ToString() ==> p == q
    ensures t.ToString() == u.ToString() ==> t == u
  {
  }

  /** A required configuration key that the configuration store does not hold. */
  datatype MissingKeyError = MissingKeyError(key: string, url: string) {
    /** MissingKeyError.__str__: the key quoted at a fixed offset, the URL at the end. */
    function ToString(): (r: string)
      ensures |r| == |key| + |url| + 34
      ensures r[..14] == "Required key '" && r[14..14 + |key|] == key
      ensures r[14 + |key|..|r| - |url|] == "' not found at URL: "
      ensures r[|r| - |url|..] == url
    {
      "Required key '" + key + "' not found at URL: " + url
    }
  }
}
