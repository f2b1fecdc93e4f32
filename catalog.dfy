/** The read-only content the game draws from: Guess-Who items and Impostor words. */
module Catalog {
  import opened Common

  /** A guessable item of a pack; `packType` is a nullable column. */
  datatype CategoryItem = CategoryItem(id: int, name: string, packType: Option<string>)

  /** The secret of an Impostor round. */
  datatype ImpostorWord = ImpostorWord(id: int, category: string, word: string, hint: string)

  /** Primary keys: no two catalog rows share an id. */
  predicate DistinctIds(items: seq<CategoryItem>)
  {
    forall i, j | 0 <= i < j < |items| :: items[i].id != items[j].id
  }

  /** `findByPackType(pack)`: the rows whose pack equals `pack` (a null pack finds the rows
      whose pack is null), in catalog order. */
  function FindByPackType(items: seq<CategoryItem>, pack: Option<string>): (r: seq<CategoryItem>)
    ensures forall c :: c in r <==> c in items && c.packType == pack
    ensures DistinctIds(items) ==> DistinctIds(r)
  {
    if |items| == 0 then []
    else
      var rest := FindByPackType(items[1..], pack);
      if items[0].packType == pack then [items[0]] + rest else rest
  }
}
