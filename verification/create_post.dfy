/** The post composer (src/components/CreatePost.tsx, lines 195-417). A
    post needs an image: the image is uploaded to the `post-images` bucket
    first, and the post row, carrying the image's public URL, is written
    only after the upload succeeded. */
module CreatePost {
  import opened Common
  import opened Text
  import opened Session

  /** The picked file; only its name reaches the model. */
  datatype File = File(name: string)

  /** `PostInput`: the fields the form contributes to the row. */
  datatype PostInput = PostInput(title: string, content: string, avatarUrl: Option<string>, communityId: Option<int>)

  /** A row of `posts` as this composer writes it. */
  datatype PostRow = PostRow(title: string, content: string, avatarUrl: Option<string>,
                             communityId: Option<int>, imageUrl: string, userId: UserId)

  /** The object paths in the `post-images` bucket and the `posts` table. */
  datatype PostStore = PostStore(objects: set<string>, posts: seq<PostRow>)

  /** The form's state. */
  datatype PostForm = PostForm(title: string, content: string, communityId: Option<int>,
                               selectedFile: Option<File>, imagePreviewUrl: Option<string>)

  /** `${title}-${Date.now()}-${file.name}`, with the clock reading `now`. */
  function FilePath(title: string, now: nat, file: File): string {
    title + "-" + DecimalString(now) + "-" + file.name
  }

  /** Two uploads of the same file under the same title at different
      times get different paths. */
  lemma FilePathsDiffer(title: string, file: File, t1: nat, t2: nat)
    requires t1 != t2
    ensures FilePath(title, t1, file) != FilePath(title, t2, file)
  {
    var a, b := title + "-", "-" + file.name;
    var p1, p2 := FilePath(title, t1, file), FilePath(title, t2, file);
    assert p1[|a|..|p1| - |b|] == DecimalString(t1);
    assert p2[|a|..|p2| - |b|] == DecimalString(t2);
  }

  /** `createPost(post, imageFile, userId)`. The upload (`uploadOk`) comes
      first and a failed one throws before anything is written; then the
      row, made of the input, the public URL of the uploaded path (given by
      `publicUrl`) and the user, is inserted (`insertOk`), and a failed
      insert throws with the image already stored. */
  function Create(store: PostStore, post: PostInput, file: File, userId: UserId, now: nat,
                  uploadOk: bool, insertOk: bool, publicUrl: string -> string): (r: (PostStore, Outcome<()>))
    ensures !uploadOk ==> r == (store, Err(StoreError))
    ensures uploadOk ==> r.0.objects == store.objects + {FilePath(post.title, now, file)}
    ensures uploadOk && !insertOk ==> r.0.posts == store.posts && r.1 == Err(StoreError)
    ensures uploadOk && insertOk ==> r.1 == Ok(())
    ensures uploadOk && insertOk ==>
      r.0.posts == store.posts + [PostRow(post.title, post.content, post.avatarUrl, post.communityId, publicUrl(FilePath(post.title, now, file)), userId)]
  {
    var path := FilePath(post.title, now, file);
    if !uploadOk then (store, Err(StoreError))
    else
      var uploaded := store.(objects := store.objects + {path});
      if !insertOk then (uploaded, Err(StoreError))
      else
        var row := PostRow(post.title, post.content, post.avatarUrl, post.communityId, publicUrl(path), userId);
        (uploaded.(posts := store.posts + [row]), Ok(()))
  }

  /** Every post's image URL is the public URL of an object in the bucket. */
  ghost predicate ImagesStored(store: PostStore, publicUrl: string -> string) {
    forall i :: 0 <= i < |store.posts| ==> exists p :: p in store.objects && store.posts[i].imageUrl == publicUrl(p)
  }

  /** No post ever points at an image that was not uploaded: whatever the
      outcome, creating a post keeps every post's image in the bucket. */
  lemma CreateKeepsImagesStored(store: PostStore, post: PostInput, file: File, userId: UserId, now: nat,
                                uploadOk: bool, insertOk: bool, publicUrl: string -> string)
    requires ImagesStored(store, publicUrl)
    ensures ImagesStored(Create(store, post, file, userId, now, uploadOk, insertOk, publicUrl).0, publicUrl)
  {
    var store' := Create(store, post, file, userId, now, uploadOk, insertOk, publicUrl).0;
    var path := FilePath(post.title, now, file);
    forall i | 0 <= i < |store'.posts| ensures exists p :: p in store'.objects && store'.posts[i].imageUrl == publicUrl(p) {
      if i < |store.posts| {
        var p :| p in store.objects && store.posts[i].imageUrl == publicUrl(p);
        assert store'.posts[i] == store.posts[i];
        assert p in store'.objects;
      } else {
        assert store'.posts[i].imageUrl == publicUrl(path);
        assert path in store'.objects;
      }
    }
  }

  /** What `handleSubmit` hands to the mutation. */
  datatype Submission = Submission(post: PostInput, file: File, userId: UserId)

  /** `handleSubmit`: nothing without a picked file or a signed-in user id;
      otherwise the form's fields, the metadata avatar (or null when it is
      missing or empty) and the user's id. */
  function HandleSubmit(form: PostForm, user: Option<User>): (r: Option<Submission>)
    ensures r.None? <==> form.selectedFile.None? || SignedInId(user).None?
    ensures r.Some? ==> r.value.file == form.selectedFile.value && r.value.userId == user.value.id
    ensures r.Some? ==> r.value.post.title == form.title && r.value.post.content == form.content
    ensures r.Some? ==> r.value.post.communityId == form.communityId
    ensures r.Some? ==> (r.value.post.avatarUrl.Some? <==> Truthy(user.value.meta.avatarUrl))
    ensures r.Some? && r.value.post.avatarUrl.Some? ==> r.value.post.avatarUrl == user.value.meta.avatarUrl
  {
    if form.selectedFile.None? || SignedInId(user).None? then None
    else
      var u := user.value;
      var avatar := if Truthy(u.meta.avatarUrl) then u.meta.avatarUrl else None;
      Some(Submission(PostInput(form.title, form.content, avatar, form.communityId), form.selectedFile.value, u.id))
  }

  /** `handleCommunityChange`: the empty choice is no community, any other
      option is the number it spells. Options are rendered from community
      ids, so their values are strings of digits. */
  function CommunityChange(value: string): (r: Option<int>)
    requires AllDigits(value)
    ensures r.None? <==> value == ""
    ensures r.Some? ==> r.value == ParseDecimal(value)
  {
    if value == "" then None else Some(ParseDecimal(value))
  }

  /** Choosing the option rendered for a community selects that community,
      and the placeholder selects none. */
  lemma CommunityOptionRoundTrip(id: nat)
    ensures CommunityChange(DecimalString(id)) == Some(id)
    ensures CommunityChange("") == None
  {
  }

  /** The empty form that `onSuccess` restores. */
  const EmptyForm := PostForm("", "", None, None, None)

  /** One submit of the form, end to end: the guard, the mutation and its
      `onSuccess`. `None` means no mutation was started. On success every
      field is cleared; on failure the form is kept for another try. */
  function Submit(store: PostStore, form: PostForm, user: Option<User>, now: nat,
                  uploadOk: bool, insertOk: bool, publicUrl: string -> string): (r: (PostStore, PostForm, Option<Outcome<()>>))
    ensures r.2.None? <==> HandleSubmit(form, user).None?
    ensures r.2.None? ==> r.0 == store && r.1 == form
    ensures r.2 == Some(Ok(())) ==>
      var s := HandleSubmit(form, user).value;
      var path := FilePath(form.title, now, s.file);
      && r.1 == EmptyForm
      && r.0.objects == store.objects + {path}
      && r.0.posts == store.posts + [PostRow(form.title, form.content, s.post.avatarUrl, form.communityId, publicUrl(path), s.userId)]
    ensures r.2.Some? && r.2.value.Err? ==> r.1 == form && r.0.posts == store.posts
  {
    match HandleSubmit(form, user)
    case None => (store, form, None)
    case Some(s) =>
      var (store', outcome) := Create(store, s.post, s.file, s.userId, now, uploadOk, insertOk, publicUrl);
      (store', if outcome.Ok? then EmptyForm else form, Some(outcome))
  }
}
