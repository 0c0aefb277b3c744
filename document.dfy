/** OCRDocument: a named document and the occurrence count of each misspelling found in it. */
module Documents {
  import opened Results

  class OCRDocument {
    const name: string
    var counts: map<Misspelling, nat>

    /** No two keys are equal misspellings: the map finds keys through Misspelling.equals. */
    ghost predicate Valid()
      reads this
    {
      forall a, b :: a in counts && b in counts && a != b ==> !a.Equals(b)
    }

    /** A new document has no misspellings; the token source is handed to the pipeline separately. */
    constructor (name: string)
      ensures this.name == name && counts == map[] && Valid()
    {
      this.name := name;
      counts := map[];
    }

    /**
     * getMisspellings: the key set of the count map, as many misspellings as
     * there are entries, no two of them holding the same word String object.
     */
    function Misspellings(): (r: set<Misspelling>)
      reads this
      ensures forall m :: m in r ==> m in counts
      ensures |r| == |counts|
      ensures Valid() ==> forall a, b :: a in r && b in r && a.word == b.word ==> a == b
    {
      counts.Keys
    }

    /**
     * addMisspelling: the count of the key equal to m goes up by one (from 0
     * when there is none, in which case m becomes the key), and the new
     * count is returned. Every other entry is unchanged.
     */
    method AddMisspelling(m: Misspelling) returns (count: nat)
      requires Valid()
      modifies this
      ensures Valid()
      ensures count >= 1
      ensures (forall k :: k in old(counts) ==> !k.Equals(m)) ==>
                count == 1 && counts == old(counts)[m := 1]
      ensures forall k :: k in old(counts) && k.Equals(m) ==>
                count == old(counts)[k] + 1 && counts == old(counts)[k := count]
      ensures |counts.Keys| <= |old(counts).Keys| + 1
    {
      var equal := set k | k in counts && k.Equals(m);
      if equal == {} {
        forall k | k in counts
          ensures !m.Equals(k)
        {
          assert k !in equal;
        }
        count := 1;
        counts := counts[m := count];
      } else {
        var k :| k in equal;
        forall k' | k' in counts && k'.Equals(m)
          ensures k' == k
        {
          assert k'.Equals(k);
        }
        count := counts[k] + 1;
        counts := counts[k := count];
      }
    }
  }
}
