/**
  An already-parsed XML element tree, as the `spex` reader hands it over: a local name,
  attributes in document order, and child elements. Text content is not used by the engine.
*/
module Xml {
  import opened Basics

  datatype Element = Element(name: string, attrs: seq<(string, string)>, children: seq<Element>)

  /** `att_opt` / `att_req`: the value of the attribute `key`, if the element carries it. */
  function Att(e: Element, key: string): Option<string> {
    FirstValue(e.attrs, key)
  }

  function FirstValue(attrs: seq<(string, string)>, key: string): Option<string> {
    if attrs == [] then None
    else if attrs[0].0 == key then Some(attrs[0].1)
    else FirstValue(attrs[1..], key)
  }

  /** An attribute is found exactly when the element carries it, and the value found is one it carries. */
  lemma {:induction false} AttFound(attrs: seq<(string, string)>, key: string)
    ensures FirstValue(attrs, key).Some? <==> exists i :: 0 <= i < |attrs| && attrs[i].0 == key
    ensures FirstValue(attrs, key).Some? ==> (key, FirstValue(attrs, key).value) in attrs
  {
    if attrs != [] {
      AttFound(attrs[1..], key);
      if attrs[0].0 != key && exists i :: 0 <= i < |attrs| && attrs[i].0 == key {
        var i :| 0 <= i < |attrs| && attrs[i].0 == key;
        assert attrs[1..][i - 1] == attrs[i];
      }
    }
  }
}
