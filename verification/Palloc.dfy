/** threads/palloc.c: groups of contiguous pages from two pools, each with a bitmap of used pages. */
module Palloc {
  import opened Bitmaps
  import opened Sequences

  class Pool {
    const used: Bitmap
    const base: nat

    ghost predicate Valid()
      reads this, used, used.bits
    {
      used.Valid() && base % 4096 == 0 && base > 0
    }

    /** init_pool: at first every page is marked unusable. */
    constructor (pageCnt: nat, start: nat)
      requires start % 4096 == 0 && start > 0
      ensures Valid() && fresh(used) && fresh(used.bits) && base == start && used.bitCnt == pageCnt
      ensures used.View() == seq(pageCnt, _ => true)
    {
      used := new Bitmap(pageCnt);
      base := start;
      new;
      used.SetMultiple(0, pageCnt, true);
    }

    /** The page with a number in the pool. */
    function PageAt(i: nat): nat {
      base + 4096 * i
    }

    /** page_from_pool: pg_no is the address divided by the page size. */
    predicate PageFromPool(page: nat) {
      base / 4096 <= page / 4096 < base / 4096 + used.bitCnt
    }

    function NumberOf(page: nat): int {
      page / 4096 - base / 4096
    }

    lemma PageNumbers(i: nat)
      requires base % 4096 == 0
      ensures NumberOf(PageAt(i)) == i && PageAt(i) % 4096 == 0
      ensures PageFromPool(PageAt(i)) <==> i < used.bitCnt
    {
      var b := base / 4096;
      assert PageAt(i) == 4096 * (b + i);
    }
  }

  /** The allocator: a pool for the kernel and one for user pages. */
  class Pages {
    const kernel: Pool
    const user: Pool

    ghost predicate Valid()
      reads this, kernel, user, kernel.used, user.used, kernel.used.bits, user.used.bits
    {
      && kernel.Valid() && user.Valid() && kernel.used.bits != user.used.bits
      && (kernel.base / 4096 + kernel.used.bitCnt <= user.base / 4096
        || user.base / 4096 + user.used.bitCnt <= kernel.base / 4096)
    }

    constructor (k: Pool, u: Pool)
      requires k.Valid() && u.Valid() && k.used.bits != u.used.bits
      requires k.base / 4096 + k.used.bitCnt <= u.base / 4096 || u.base / 4096 + u.used.bitCnt <= k.base / 4096
      ensures Valid() && kernel == k && user == u
    {
      kernel, user := k, u;
    }

    ghost function PoolOf(fromUser: bool): Pool {
      if fromUser then user else kernel
    }

    /** palloc_get_multiple: the first run of free pages, or null exactly when there is none. */
    method GetMultiple(fromUser: bool, cnt: nat) returns (pages: Option<nat>)
      requires Valid()
      modifies kernel.used.bits, user.used.bits
      ensures Valid()
      ensures
        var (p, q) := (PoolOf(fromUser), PoolOf(!fromUser));
        var before := old(p.used.View());
        q.used.View() == old(q.used.View()) &&
        match pages
        case None => IsFirstRun(before, 0, cnt, false, None) && p.used.View() == before
        case Some(page) =>
          var i := p.NumberOf(page);
          i >= 0 && page == p.PageAt(i) && i + cnt <= |before| && IsFirstRun(before, 0, cnt, false, Some(i))
          && p.used.View() == SetRange(before, i, cnt, true)
    {
      var pool := if fromUser then user else kernel;
      var idx := pool.used.ScanAndFlip(0, cnt, false);
      if idx.Some? {
        pool.PageNumbers(idx.value);
        pages := Some(pool.base + 4096 * idx.value);
      } else {
        pages := None;
      }
    }

    /** palloc_free_multiple.  The pool is found from the address; null or no pages is no request. */
    method FreeMultiple(page: nat, cnt: nat, ghost fromUser: bool)
      requires Valid() && page % 4096 == 0
      requires page != 0 && cnt != 0 ==>
        var p := PoolOf(fromUser);
        0 <= p.NumberOf(page) && p.NumberOf(page) + cnt <= p.used.bitCnt
          && AllAre(p.used.View(), p.NumberOf(page), cnt, true)
      modifies kernel.used.bits, user.used.bits
      ensures Valid()
      ensures
        var (p, q) := (PoolOf(fromUser), PoolOf(!fromUser));
        q.used.View() == old(q.used.View()) &&
        p.used.View() == if page == 0 || cnt == 0 then old(p.used.View())
                         else SetRange(old(p.used.View()), p.NumberOf(page), cnt, false)
    {
      if page == 0 || cnt == 0 {
        return;
      }
      var pool := if kernel.PageFromPool(page) then kernel else user;
      assert pool == PoolOf(fromUser);
      pool.used.SetMultiple(pool.NumberOf(page), cnt, false);
    }

    /** What was taken can be given back, and then everything is as it was. */
    method TakeAndGiveBack(fromUser: bool, cnt: nat) returns (ok: bool)
      requires Valid() && cnt > 0
      modifies kernel.used.bits, user.used.bits
      ensures Valid() && kernel.used.View() == old(kernel.used.View()) && user.used.View() == old(user.used.View())
    {
      var page := GetMultiple(fromUser, cnt);
      if page.Some? {
        ghost var p := PoolOf(fromUser);
        p.PageNumbers(p.NumberOf(page.value));
        FreeMultiple(page.value, cnt, fromUser);
        assert p.used.View() == old(p.used.View());
      }
      ok := page.Some?;
    }
  }
}
