/** The thumbnail grid's adapter (PhotoAdapter.kt): it serves the file list it was built with. */
module Adapter {
  class PhotoAdapter {
    const photoFiles: seq<string>

    constructor (files: seq<string>)
      ensures photoFiles == files
    {
      photoFiles := files;
    }

    /** `getItemCount`: one grid cell per file. */
    function ItemCount(): (n: nat)
      ensures n == |photoFiles|
    {
      |photoFiles|
    }
  }
}
