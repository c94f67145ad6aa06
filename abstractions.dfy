/** `IProductsService`: the capability the request handler depends on. */
module Abstractions {
  import opened Models

  /** One call made through the interface, with its argument. */
  datatype Call =
    | GetByIdCall(id: Int32)
    | GetAllCall
    | CreateCall(entity: Product)
    | UpdateCall(entity: Product)
    | DeleteCall(entity: Product)

  /** An implementation of the interface seen from one state: what each method returns or
      throws for each argument. Any value of this type is a possible mock; the concrete store
      gives one per state (`Services.AsService`). `create` may return null, as a mock can. */
  datatype Service = Service(
    getById: Int32 -> Outcome<Option<Product>>,
    getAll: Outcome<seq<Product>>,
    create: Product -> Outcome<Option<Product>>,
    update: Product -> Outcome<()>,
    delete: Product -> Outcome<()>)
}
