/** A binding site as the clustering engine sees it: which factor called it, where it
    lies, how strong the call was and whether a motif supports it. */
module Sites {

  datatype Site = Site(tfId: nat, chrom: string, loc: int, signal: real, hasMotif: bool)
}
