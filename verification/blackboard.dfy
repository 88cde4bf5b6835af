/**
 * The blackboard: a map from entry key to entry text. Every operation is
 * atomic here; the lock that guards the map in `server/server.py` is not modelled.
 */
module Blackboard {

  type Board = map<string, string>

  /** `content[key] = entry`: the key now maps to the entry; nothing else changes. */
  function ModifyContent(b: Board, key: string, entry: string): (r: Board)
    ensures key in r && r[key] == entry
    ensures r.Keys == b.Keys + {key}
    ensures forall k :: k in b && k != key ==> r[k] == b[k]
    ensures key in b ==> |r| == |b|
  {
    b[key := entry]
  }

  /** `content.pop(key)`: only defined for a present key (pop raises otherwise). */
  function DeleteContent(b: Board, key: string): (r: Board)
    requires key in b
    ensures r.Keys == b.Keys - {key}
    ensures forall k :: k in r ==> r[k] == b[k]
    ensures |r| == |b| - 1
  {
    b - {key}
  }

  /** `content = new_content`: the old content is replaced wholesale. */
  function SetContent(b: Board, content: Board): (r: Board)
    ensures forall k :: k in content ==> k in r && r[k] == content[k]
    ensures forall k :: k in b && k !in content ==> k !in r
    ensures |r| == |content|
  {
    content
  }

  /** Replacing the content does not merge: the previous board leaves no trace. */
  lemma SetContentReplaces(b1: Board, b2: Board, content: Board)
    ensures SetContent(b1, content) == SetContent(b2, content)
    ensures forall k :: k in SetContent(b1, content) <==> k in content
  {
  }

  /** Deleting a freshly added key restores the board: delete undoes a fresh modify. */
  lemma DeleteUndoesFreshModify(b: Board, key: string, entry: string)
    requires key !in b
    ensures DeleteContent(ModifyContent(b, key, entry), key) == b
  {
  }

  /** Delete followed by modify of the same key is a plain overwrite. */
  lemma ModifyAfterDeleteIsOverwrite(b: Board, key: string, entry: string)
    requires key in b
    ensures ModifyContent(DeleteContent(b, key), key, entry) == ModifyContent(b, key, entry)
  {
  }

  /**
   * The entries as a list of (key, entry) pairs: every entry exactly once.
   * The order of a Python dict (insertion order) is not modelled.
   */
  method ContentAsList(b: Board) returns (pairs: seq<(string, string)>)
    ensures |pairs| == |b|
    ensures forall i :: 0 <= i < |pairs| ==> pairs[i].0 in b && b[pairs[i].0] == pairs[i].1
    ensures forall k :: k in b ==> exists i :: 0 <= i < |pairs| && pairs[i].0 == k
    ensures forall i, j :: 0 <= i < j < |pairs| ==> pairs[i].0 != pairs[j].0
  {
    pairs := [];
    var remaining := b.Keys;
    while remaining != {}
      invariant remaining <= b.Keys
      invariant |pairs| + |remaining| == |b.Keys|
      invariant forall i :: 0 <= i < |pairs| ==> pairs[i].0 in b && pairs[i].0 !in remaining && b[pairs[i].0] == pairs[i].1
      invariant forall k :: k in b && k !in remaining ==> exists i :: 0 <= i < |pairs| && pairs[i].0 == k
      invariant forall i, j :: 0 <= i < j < |pairs| ==> pairs[i].0 != pairs[j].0
      decreases |remaining|
    {
      var k :| k in remaining;
      ghost var before := pairs;
      pairs := pairs + [(k, b[k])];
      remaining := remaining - {k};
      forall k' | k' in b && k' !in remaining
        ensures exists i :: 0 <= i < |pairs| && pairs[i].0 == k'
      {
        if k' == k {
          assert pairs[|before|].0 == k';
        } else {
          var i :| 0 <= i < |before| && before[i].0 == k';
          assert pairs[i].0 == k';
        }
      }
    }
  }
}
