/** Dotted names and lookups among the children of a block. */
module Names {
  import opened Common
  import opened Engine

  /** extract_block_name: what stands before and after the first dot. */
  function ExtractBlockName(name: string): (string, string) {
    if name == [] then ("", "")
    else if name[0] == '.' then ("", name[1..])
    else
      var (h, t) := ExtractBlockName(name[1..]);
      ([name[0]] + h, t)
  }

  lemma {:induction false} ExtractPlain(a: string)
    requires '.' !in a
    ensures ExtractBlockName(a) == (a, "")
    decreases a
  {
    if a != [] {
      ExtractPlain(a[1..]);
      assert a == [a[0]] + a[1..];
    }
  }

  lemma {:induction false} ExtractJoined(a: string, b: string)
    requires '.' !in a
    ensures ExtractBlockName(Join(a, b)) == (a, b)
    decreases a
  {
    var j := Join(a, b);
    if a == [] {
      assert j[0] == '.' && j[1..] == b;
    } else {
      ExtractJoined(a[1..], b);
      assert j[0] == a[0] && j[1..] == Join(a[1..], b);
      assert a == [a[0]] + a[1..];
    }
  }

  function FindChild(children: seq<Cfg>, name: string, i: nat): Option<nat>
    requires i <= |children|
    decreases |children| - i
  {
    if i == |children| then None
    else if children[i].name == name then Some(i)
    else FindChild(children, name, i + 1)
  }

  lemma {:induction false} FindChildFinds(children: seq<Cfg>, i: nat, k: nat)
    requires k <= i < |children|
    requires forall a, b | 0 <= a < b < |children| :: children[a].name != children[b].name
    ensures FindChild(children, children[i].name, k) == Some(i)
    decreases i - k
  {
    if k < i { FindChildFinds(children, i, k + 1); }
  }

  lemma {:induction false} FoundIsChild(children: seq<Cfg>, name: string, i: nat)
    requires i <= |children|
    ensures FindChild(children, name, i).Some? ==> FindChild(children, name, i).value < |children|
    decreases |children| - i
  {
    if i < |children| { FoundIsChild(children, name, i + 1); }
  }
}
