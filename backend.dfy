/** app/routers/backend.py: the sample item routes. */
module BackendRouter {
  import opened Wrappers

  datatype Item = Item(id: int, name: string)

  /** `GET /items`: always the one sample item. */
  function ListItems(): (r: seq<Item>)
    ensures |r| == 1 && r[0].id == 1 && r[0].name == "example"
  {
    [Item(1, "example")]
  }

  /** `POST /items`: a positive id is echoed back; any other is a 400. */
  function CreateItem(item: Item): (r: Result<Item>)
    ensures r.Ok? <==> item.id > 0
    ensures r.Ok? ==> r.value == item
    ensures r.Err? ==> r.error == BadRequest("invalid id") && r.error.StatusCode() == 400
  {
    if item.id <= 0 then Err(BadRequest("invalid id")) else Ok(item)
  }

  /** Every listed item is accepted back by `create_item` unchanged. */
  lemma ListedItemsAreCreatable()
    ensures forall i :: 0 <= i < |ListItems()| ==> CreateItem(ListItems()[i]) == Ok(ListItems()[i])
  {
  }
}
