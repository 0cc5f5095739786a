/** The NodeBlocks as the API server holds them, one atomic read or write at a time. */
module ApiServer {
  import opened NodeBlocks

  class Api {
    var blocks: Objects

    constructor ()
      ensures blocks == map[]
    {
      blocks := map[];
    }
  }
}
