/**
  Appending the local device name to an advertising payload.

  A payload is a sequence of AD structures: a length byte, a type byte and data, as section 11 of
  Volume 3, Part C of the Bluetooth Core Specification describes.
 */
module LocalNameAd {
  import opened Basics

  const BLE_ADV_MAX_LEGACY_ADVERTISING_DATA_BYTES: nat := 31
  const BLE_ADV_DATA_FIELD_TYPE_AND_LEN: nat := 2
  const BLE_AD_TYPE_NAME_CMPL: Byte := 0x09

  datatype Element = Element(adType: Byte, data: seq<Byte>)

  /** The elements of a well-formed payload. */
  function Parse(p: seq<Byte>): Option<seq<Element>> {
    if p == [] then Some([])
    else if p[0] == 0 || |p| < Size(p) then None
    else
      var rest := Parse(p[Size(p)..]);
      if rest.None? then None else Some([Element(p[1], p[2..Size(p)])] + rest.value)
  }

  /** The bytes of the first element, its length byte included. */
  function Size(p: seq<Byte>): nat
    requires p != []
  {
    1 + p[0] as nat
  }

  method AppendLocalName(payload: seq<Byte>, localName: seq<Byte>) returns (r: seq<Byte>)
    ensures r == WithLocalName(payload, localName)
    ensures r == if |payload| + |localName| + 2 <= 31 then payload + [|localName| + 1, 0x09] + localName else payload
  {
    r := payload;
    var nameAdBytes := |localName| + BLE_ADV_DATA_FIELD_TYPE_AND_LEN;
    if |r| + nameAdBytes > BLE_ADV_MAX_LEGACY_ADVERTISING_DATA_BYTES {
      return;
    }
    r := r + [(|localName| + 1) % 256];
    r := r + [BLE_AD_TYPE_NAME_CMPL];
    r := r + localName;
    assert r == payload + Encoded(Element(BLE_AD_TYPE_NAME_CMPL, localName));
  }

  predicate Fits(payload: seq<Byte>, localName: seq<Byte>) {
    |payload| + |localName| + BLE_ADV_DATA_FIELD_TYPE_AND_LEN <= BLE_ADV_MAX_LEGACY_ADVERTISING_DATA_BYTES
  }

  function Encoded(e: Element): seq<Byte>
    requires |e.data| < 255
  {
    [|e.data| + 1, e.adType] + e.data
  }

  function WithLocalName(payload: seq<Byte>, localName: seq<Byte>): seq<Byte> {
    if Fits(payload, localName) then payload + Encoded(Element(BLE_AD_TYPE_NAME_CMPL, localName)) else payload
  }

  lemma {:induction false} ParseEncoded(e: Element)
    requires |e.data| < 255
    ensures Parse(Encoded(e)) == Some([e])
  {
    var q := Encoded(e);
    assert Size(q) == |q|;
    assert q[|q|..] == [];
    assert q[2..|q|] == e.data;
    assert [Element(q[1], q[2..|q|])] + [] == [e];
  }

  lemma {:induction false} ParseAppended(p: seq<Byte>, e: Element)
    requires |e.data| < 255 && Parse(p).Some?
    ensures Parse(p + Encoded(e)) == Some(Parse(p).value + [e])
  {
    var q := p + Encoded(e);
    if p == [] {
      ParseEncoded(e);
      assert q == Encoded(e);
      assert [] + [e] == [e];
    } else {
      var n := Size(p);
      ParseAppended(p[n..], e);
      SplitFirst(p, Encoded(e));
      assert [Element(p[1], p[2..n])] + (Parse(p[n..]).value + [e]) == Parse(p).value + [e];
    }
  }

  /** Bytes behind the first element do not change it. */
  lemma {:induction false} SplitFirst(p: seq<Byte>, more: seq<Byte>)
    requires p != [] && p[0] != 0 && Size(p) <= |p|
    ensures Size(p + more) == Size(p) && (p + more)[1] == p[1]
    ensures (p + more)[2..Size(p)] == p[2..Size(p)] && (p + more)[Size(p)..] == p[Size(p)..] + more
  {
  }

  /**
    A well-formed payload stays well formed: it gains exactly one complete-name element holding the name
    when name and header still fit into the 31 bytes of legacy advertising, and is left alone otherwise.
   */
  lemma {:induction false} NameIsAppended(payload: seq<Byte>, localName: seq<Byte>)
    requires Parse(payload).Some?
    ensures var r := WithLocalName(payload, localName);
            if |payload| + 2 + |localName| <= 31
            then Parse(r) == Some(Parse(payload).value + [Element(0x09, localName)]) && |r| == |payload| + 2 + |localName|
            else r == payload
  {
    if Fits(payload, localName) {
      ParseAppended(payload, Element(BLE_AD_TYPE_NAME_CMPL, localName));
    }
  }
}
