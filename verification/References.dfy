/** Repositories and the references in them (`graph/tags.go`, `utils/utils.go`). */
module References {
  import opened ImageConfig

  type Repositories = map<string, map<string, ID>>

  /** A tag or digest in a repository. */
  datatype Ref = Ref(repo: string, tag: string)

  predicate Points(repos: Repositories, ref: Ref, id: ID) {
    ref.repo in repos && ref.tag in repos[ref.repo] && repos[ref.repo][ref.tag] == id
  }

  /** `DigestReference`. */
  predicate IsDigest(tag: string) { ':' in tag }
}
