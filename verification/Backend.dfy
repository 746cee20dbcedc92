/** One backend node as an object: its cache, its peer queues and the gossip endpoint (app.py, server/ws_server.py). */
module Backend {
  import opened FeedCache
  import opened FeedBytes
  import opened GossipLink
  import Cluster

  class Backend {
    const server: string
    const cache: MessageCache
    const gossip: PeerQueues
    var pending: seq<Publication>
    ghost var published: seq<Publication>

    /** The node of the cluster that this object is. */
    ghost function View(): Cluster.Node
      reads this, cache
    {
      Cluster.Node(server, cache.View().cache, published, pending)
    }

    constructor (server: string, bounds: Bounds, peers: set<string>)
      ensures cache.bounds == bounds && View() == Cluster.Node(server, EMPTY, [], [])
      ensures fresh(cache) && fresh(gossip) && gossip.queues.Keys == peers
      ensures cache.View() == START && forall q :: q in gossip.queues ==> gossip.queues[q] == []
    {
      this.server := server;
      cache := new MessageCache(bounds);
      gossip := new PeerQueues(peers);
      pending, published := [], [];
    }

    /** Cached at once, queued for every peer, and left to the persistence task, which caches it a second time. */
    method Publish(p: Publication, now: int)
      modifies this, cache, gossip
      ensures View() == Cluster.PublishAt(cache.bounds, old(View()), p, now)
      ensures gossip.queues.Keys == old(gossip.queues).Keys
      ensures forall q :: q in gossip.queues ==> gossip.queues[q] == Push(old(gossip.queues)[q], Packet(server, p))
    {
      cache.Put(p.room, Cluster.LocalForm(p), now);
      pending, published := pending + [p], published + [p];
      gossip.Broadcast(server, p);
    }

    method Persist(k: nat, now: int)
      requires k < |pending|
      modifies this, cache
      ensures View() == Cluster.PersistAt(cache.bounds, old(View()), k, now)
      ensures pending == old(pending)[..k] + old(pending)[k + 1..]
      ensures var p := old(pending)[k];
        cache.View().cache
          == FeedCache.Put(cache.bounds, old(cache.View()).cache, p.room, Cluster.CanonicalForm(p), now)
    {
      cache.Put(pending[k].room, Cluster.CanonicalForm(pending[k]), now);
      pending := pending[..k] + pending[k + 1..];
    }

    /** The receiver touches its cache only: nothing it is sent is sent on or persisted. */
    method ReceiveGossip(items: seq<Packet>, nows: seq<int>)
      requires |items| <= |nows|
      modifies cache
      ensures View() == Cluster.DeliverAt(cache.bounds, old(View()), items, nows)
    {
      for i := 0 to |items|
        invariant cache.View().cache == Cluster.Receive(cache.bounds, old(cache.View()).cache, server, items[..i], nows)
      {
        assert items[..i + 1][..i] == items[..i];
        if items[i].origin != server {
          cache.Put(items[i].body.room, Cluster.CanonicalForm(items[i].body), nows[i]);
        }
      }
      assert items[..|items|] == items;
    }
  }
}
