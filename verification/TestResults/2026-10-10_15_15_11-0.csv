TestResult.DisplayName,TestResult.Outcome,TestResult.Duration,TestResult.ResourceCount,RandomSeed
Orders.ValidPrefixCons (correctness),Passed,00:00:00.5926185,1308876,3
Orders.ValidPrefixCons (well-formedness),Passed,00:00:00.1943782,66053,3
