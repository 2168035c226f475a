/**
 * Frontend/src/components/ForumNotifications.tsx: the fetched posts keep
 * only the replies written by "Admin", and the panel shows a loading text,
 * an error text, or the posts with a count badge or an empty message.
 */
module ForumNotifications {
  import opened Common

  datatype PostReply = PostReply(text: string, author: string, timeAgo: string)

  /** A post as this panel receives it. */
  datatype NotificationPost = NotificationPost(
    id: string,
    title: string,
    author: string,
    category: string,
    replies: seq<PostReply>,
    likes: int,
    timeAgo: string,
    isNew: bool
  )

  /** The exact author name that marks an administrator's answer. */
  const AdminAuthor := "Admin"

  predicate IsAdminReply(r: PostReply) {
    r.author == AdminAuthor
  }

  /** The replies of one post written by "Admin", in their original order. */
  function AdminReplies(replies: seq<PostReply>): (r: seq<PostReply>)
    ensures forall i :: 0 <= i < |r| ==> r[i] in replies && r[i].author == AdminAuthor
    ensures forall i :: 0 <= i < |replies| && replies[i].author == AdminAuthor ==> replies[i] in r
  {
    Filter(IsAdminReply, replies)
  }

  /** Kept replies stay in their relative order. */
  lemma AdminRepliesKeepOrder(a: seq<PostReply>, b: seq<PostReply>)
    ensures AdminReplies(a + b) == AdminReplies(a) + AdminReplies(b)
  {
    FilterConcat(IsAdminReply, a, b);
  }

  /**
   * The map over the fetched posts: same posts in the same order, each with
   * only its admin replies and every other field as fetched.
   */
  function KeepAdminReplies(posts: seq<NotificationPost>): (r: seq<NotificationPost>)
    ensures |r| == |posts|
    ensures forall i :: 0 <= i < |posts| ==> r[i].(replies := posts[i].replies) == posts[i]
    ensures forall i :: 0 <= i < |posts| ==> r[i].replies == AdminReplies(posts[i].replies)
  {
    seq(|posts|, i requires 0 <= i < |posts| => posts[i].(replies := AdminReplies(posts[i].replies)))
  }

  /** The fetch: still running, failed, or done with the raw posts. */
  datatype Fetch = Loading | FetchFailed | Fetched(posts: seq<NotificationPost>)

  /** What the panel shows. */
  datatype Panel =
    | LoadingPanel(text: string)
    | ErrorPanel(text: string)
    | PostsPanel(badge: Option<string>, emptyMessage: Option<string>, posts: seq<NotificationPost>)

  const LoadingText := "Loading your questions..."
  const ErrorText := "Unable to load your forum posts right now."
  const EmptyText := "You haven’t asked any questions yet."

  /** The decimal digits of a count, as JSX renders a number. */
  function Decimal(n: nat): string
    decreases n
  {
    (if n >= 10 then Decimal(n / 10) else "") + [(('0' as int) + n % 10) as char]
  }

  /** The value of a decimal digit. */
  function DigitValue(c: char): nat {
    if '0' <= c <= '9' then c as int - '0' as int else 0
  }

  /** The number a string of decimal digits denotes, most significant first. */
  function DigitsValue(s: string): nat
    decreases |s|
  {
    if s == [] then 0 else DigitsValue(s[..|s| - 1]) * 10 + DigitValue(s[|s| - 1])
  }

  /** Reading back the digits of a count gives the count; every character is a digit. */
  lemma {:induction false} DecimalRoundTrip(n: nat)
    ensures |Decimal(n)| >= 1
    ensures forall i :: 0 <= i < |Decimal(n)| ==> '0' <= Decimal(n)[i] <= '9'
    ensures DigitsValue(Decimal(n)) == n
    decreases n
  {
    var d := Decimal(n);
    var last := [(('0' as int) + n % 10) as char];
    if n >= 10 {
      DecimalRoundTrip(n / 10);
      assert d == Decimal(n / 10) + last;
      assert d[..|d| - 1] == Decimal(n / 10);
    } else {
      assert d == last;
      assert d[..|d| - 1] == [];
    }
  }

  /**
   * The rendered panel: an error shows its text instead of posts; otherwise
   * the "N active" badge appears iff there is a post and the empty message
   * iff there is none.
   */
  function Render(f: Fetch): (p: Panel)
    ensures f.Loading? ==> p == LoadingPanel(LoadingText)
    ensures f.FetchFailed? ==> p == ErrorPanel(ErrorText)
    ensures f.Fetched? ==>
      && p.PostsPanel?
      && p.posts == KeepAdminReplies(f.posts)
      && (p.badge.Some? <==> |f.posts| > 0)
      && (p.emptyMessage.Some? <==> |f.posts| == 0)
      && (p.badge.Some? ==> p.badge.value == Decimal(|f.posts|) + " active")
  {
    match f
    case Loading => LoadingPanel(LoadingText)
    case FetchFailed => ErrorPanel(ErrorText)
    case Fetched(raw) =>
      var posts := KeepAdminReplies(raw);
      if |posts| > 0 then PostsPanel(Some(Decimal(|posts|) + " active"), None, posts)
      else PostsPanel(None, Some(EmptyText), posts)
  }

  /**
   * The badge states how many posts were fetched: keeping only admin replies
   * never hides a post, and the number in front of " active" reads back as
   * the count.
   */
  lemma BadgeCountsPosts(raw: seq<NotificationPost>)
    requires |raw| > 0
    ensures var p := Render(Fetched(raw));
      && p.PostsPanel? && p.badge.Some?
      && |p.posts| == |raw|
      && var b := p.badge.value;
      && |b| > |" active"|
      && b[|b| - |" active"|..] == " active"
      && DigitsValue(b[..|b| - |" active"|]) == |raw|
  {
    var p := Render(Fetched(raw));
    var d := Decimal(|raw|);
    var b := d + " active";
    assert p.badge.value == b;
    assert |p.posts| == |raw|;
    DecimalRoundTrip(|raw|);
    assert |b| - |" active"| == |d|;
    assert b[..|d|] == d;
    assert b[|d|..] == " active";
  }
}
