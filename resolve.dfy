/** `git::run` of src/git.rs: resolving one pin's tag to a tag hash and a commit hash.
    The repository library is an oracle: the state of the repository directory and
    the references it holds. */
module Resolve {
  import opened Errors
  import opened Git
  import opened Makepkg

  /** Where a reference points: an object id, or another reference by name
      (`try_into_id` fails on the latter). */
  datatype Target = Object(id: string) | Symbolic(name: string)

  /** A reference as the library reports it: its target and, when it can be peeled,
      the commit it finally points to. */
  datatype Reference = Reference(target: Target, peeled: Option<string>)

  /** The repository directory: absent, present but not a repository, or a repository
      with its references by full name. */
  datatype RepoState = Missing | Unopenable | Repository(refs: map<string, Reference>)

  function TagRefName(tag: string): string {
    "refs/tags/" + tag
  }

  /** `git::run`: the directory must exist, open as a repository, and the source must
      name a tag whose reference has an object id and peels to a commit. */
  function Run(source: GitSource, path: string, repo: RepoState): (r: Result<ResolvedPin>)
    ensures repo.Missing? ==> r == Err(RepoDoesNotExist(path))
    ensures repo.Unopenable? ==> r == Err(OpenFailed)
    ensures repo.Repository? && source.tag.None? ==> r == Err(NoTagConfigured)
    ensures repo.Repository? && source.tag.Some? && TagRefName(source.tag.value) !in repo.refs ==>
      r == Err(TagNotFound(TagRefName(source.tag.value)))
    ensures repo.Repository? && source.tag.Some? && TagRefName(source.tag.value) in repo.refs ==>
      var ref := repo.refs[TagRefName(source.tag.value)];
      && (ref.target.Symbolic? ==> r == Err(NotAnObjectId(TagRefName(source.tag.value))))
      && (ref.target.Object? && ref.peeled.None? ==> r == Err(TagNotPeeled(TagRefName(source.tag.value))))
    ensures r.Ok? <==>
      && repo.Repository? && source.tag.Some?
      && TagRefName(source.tag.value) in repo.refs
      && repo.refs[TagRefName(source.tag.value)].target.Object?
      && repo.refs[TagRefName(source.tag.value)].peeled.Some?
    ensures r.Ok? ==>
      var ref := repo.refs[TagRefName(source.tag.value)];
      r.value == ResolvedPin(ref.peeled.value, ref.target.id, Source.Git(source))
  {
    match repo
    case Missing => Err(RepoDoesNotExist(path))
    case Unopenable => Err(OpenFailed)
    case Repository(refs) =>
      match source.tag
      case None => Err(NoTagConfigured)
      case Some(tag) =>
        var name := TagRefName(tag);
        if name !in refs then Err(TagNotFound(name))
        else
          var ref := refs[name];
          match ref.target
          case Symbolic(_) => Err(NotAnObjectId(name))
          case Object(tagHash) =>
            match ref.peeled
            case None => Err(TagNotPeeled(name))
            case Some(commitHash) => Ok(ResolvedPin(commitHash, tagHash, Source.Git(source)))
  }
}
